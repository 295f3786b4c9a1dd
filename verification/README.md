# A verified model of the vector database

The program is an in-memory vector database: named collections of float vectors with
metadata, searched exactly or through approximate indices, kept on disk between runs and
served over RPC. This Dafny project models its core and proves what the parts promise.

- **Exact scan** (`Ranking`, `Vectors`, `Spaces`, `BruteForce`). Scores are pairs of a
  distance and an id, ordered as the program orders its pairs. `TopK` of the scores is the
  reference answer that every index is compared with.
- **HNSW index** (`HnswGraph`, `HnswWalk`, `HnswSearch`, `HnswLink`, `HnswState`, `HnswEntry`,
  `HnswEmptied`, `HnswStale`, `HnswCrowded`, `Hnsw`, `HnswWitnesses`, `Pending`). The class `Hnsw.Index` has the
  program's fields. `State` is its graph as a value, and each method says what it does to
  it: `Inserts` for an insertion, `Builds` for a build. `Grown(grade)` says what holds of an
  index and its pending sets over whole histories of additions, removals, builds and
  searches. `Grown(Small)`: up to `M0_` + 1 nodes that were only ever added; `Grown(Tiny)`:
  up to `M_` + 1 and `ef_construction_` + 1 nodes, with removals and updates, all links
  two-way. `Refills`: an index that is emptied, or was emptied and filled again with up to
  `M0_` nodes. An index of any of these kinds answers exactly like the scan.
- **IVF-Flat index and k-means** (`Inertia`, `KMeansSteps`, `Descent`, `KMeans`, `Heaps`,
  `IvfSearch`, `IvfLists`, `Ivf`). `Covers` says that each stored id is listed with the
  centroid nearest to its current vector; `ListsOnce` that each is listed once.
- **Collections** (`Batches`, `VectorCollection`, `Interleaving`, `HnswInterleaving`,
  `IvfInterleaving`). `VectorCollection` drives both index classes through one collection;
  the others let any number of threads take their critical sections in any order, beside
  the pending sets of an HNSW index, its graph, and an IVF index.
- **Persistence** (`Bytes`, `Tables`, `Wire`, `Persistence`, `Streams`, `Directory`,
  `Storage`, `Databases`). The parsers and printers as functions, the streaming code proved
  against them, and the database over a directory of files.
- **Server** (`WorkerPool`, `Rpc`, `RpcRuns`). Transition systems over all interleavings, with
  the imperative steps proved against them, and laws of whole runs.
- **Hash** (`SplitMix`). The hash of the id maps, with its inverse.

`Iteration` has two lemmas about loops over hash sets, whose order is always left open.

Results that differ from what one might expect of the program:

- A small HNSW index needs no large `ef_construction_` to be exact: layer 0 stays connected
  anyhow (`HnswState.FinishedBase`, `Hnsw.Index.SearchKnn`). A large `ef_construction_` makes
  it complete. `M0_` + 1 nodes are the most: `HnswWitnesses.CrowdedIndex` has one more, the
  last of which no search can find.
- Upserting an id that is stored, or repeating one in a batch, lists it twice in an IVF
  index until the next build; `IvfLists.OnceAfterAddIff` and `IvfSearch.FullProbeIsExactIff`
  give the exact conditions for what that costs, and `IvfLists.UpsertedAgain` a search that
  returns one id twice.
- Removing a node unlinks its out-neighbours only. On layers with two-way links that is
  all there is to unlink (`HnswLink.UnlinkedKeeps`), so an index that never held more than
  `M_` + 1 nodes, and never lost all those of its highest level, keeps no dangling link
  (`Hnsw.Index.RemovePending`). Beyond that, shrinking makes one-way links:
  `HnswLink.OneWayLink` has them for every degree bound, `HnswWitnesses.CrowdedIndex` in a running index, and
  `HnswCrowded.RemovalDangles` removes a node from it.
- A graph survives its removals exactly when a node that stays lives on the highest level
  and every link from a node that stays to one that goes is answered
  (`HnswState.SurvivesIff`).
- Removals that empty the index forget the entry point and keep the layers, so the next
  node becomes its own neighbour: `HnswEmptied.FirstSelfLinkIff` has the exact condition,
  and `HnswWitnesses.SelfLinkedNode` gets there by adding one vector, removing it and adding
  another; updating the only vector does it too. Searches are exact all the same up to `M0_` nodes (`HnswEmptied.Refilled`), but
  removing that node is undefined: the loop erases from the set it iterates over. While no
  node is linked to itself, every removal is defined (`HnswState.RemovalsDefined`).
- When no node of the highest level stays but others do, the entry point stays stale, in an
  index of any size. If nothing is inserted, every search for k >= 1 then throws although
  vectors are stored (`HnswState.StaleAfterBuild`, `HnswWitnesses.RemovedEntryPoint`). If the entry
  point alone is inserted again, as by an update of the only node of the highest level, it
  is linked to itself, and every search answers with it alone (`HnswStale.UpdatedEntry`,
  `HnswWitnesses.UpdatedEntryPoint`). Whatever is inserted, the nodes that stay are lost to
  every search after it (`HnswStale.SurvivorsLost`, `Hnsw.Index.SearchKnn`); if that includes
  the entry point, as long as it all fits under the degree bounds.
- More generally, a node without links from or to it is linked to itself on layer 0 exactly
  if that layer is there, has room for a link, and the entry point is missing or is the node
  itself (`HnswEntry.SelfLinkRule`).
- `database::save` never removes the file of a deleted collection, so the collection comes
  back with the next load: `Storage.RestoredIff` has the exact condition, and
  `Storage.DeletedComesBack` shows it of every database that can be saved.
- A request operation that fails before the shutdown makes no new handler, so each such
  failure leaves one handler fewer for its kind of call (`RpcRuns.CallsAreAwaited`).
- An index of type `unknown` would be counted but not written: `Persistence.FileReadsBackIff`.
  `Databases.Database.Valid` shows that no operation stores one.

## Model

| member | source | states |
|---|---|---|
| BruteForce.PartialSort | src/impl/core/indices/euclidean.cpp:42 | in place: the array keeps its elements, and its first k are the k smallest, ascending |
| BruteForce.Collect | src/impl/core/indices/euclidean.cpp:29-40 | one (distance, id) pair for every stored vector, whatever the order of the hash set |
| BruteForce.SearchForTopK | src/impl/core/indices/euclidean.cpp:16-53 | the answer is the min(k, n) nearest stored ids, in (distance, id) order |
| Vectors.ComputeSquared | src/include/core/distance.h:32-41 | the loop of the Euclidean distance computes the sum of squared differences that all distance facts rest on |
| Vectors.EuclideanOrder | src/include/core/distance.h:32-41 | comparing Euclidean distances is comparing those sums, both ways |
| HnswSearch.SearchLayer | src/impl/core/indices/hnsw.cpp:77-123 | terminates on every graph; returns the best min(max(ef, entries), visited) of the visited nodes; visited nodes are reachable; neighbours of returned nodes were visited; the walk is best-first, as `HnswSearch.SearchIsBestFirst` spells out |
| HnswSearch.SearchIsBestFirst | src/impl/core/indices/hnsw.cpp:96-122 | of every layer search: the nodes visited are the entry points and the neighbours of the nodes expanded; a node expanded later, but accepted before round i, is no better than the one of round i; each is no farther than the farthest result of its round; and an accepted one is expanded or farther than every result |
| HnswWalk.BestFirstOrder | src/impl/core/indices/hnsw.cpp:98-103 | the order of the walk: what was accepted before round i and is taken after it is no better than what round i takes |
| HnswWalk.SeenIsOpened | src/impl/core/indices/hnsw.cpp:107-110 | after every round the visited nodes are the entry points and the neighbours of the nodes expanded so far |
| HnswWalk.TakenOrBeyond | src/impl/core/indices/hnsw.cpp:98-103 | the walk stops only when every candidate left is farther than every result |
| HnswSearch.LocalOptimum | src/impl/core/indices/hnsw.cpp:96-122 | a neighbour of a returned node that was left out is no nearer than any returned node |
| HnswSearch.NothingNearerLeft | src/impl/core/indices/hnsw.cpp:100-104 | the early break fires only when every returned node has been expanded |
| HnswSearch.Expand | src/impl/core/indices/hnsw.cpp:105-119 | one round expands one candidate: the walk keeps its invariant, no node is forgotten, and without a new node no candidate is added |
| HnswSearch.Progress | src/impl/core/indices/hnsw.cpp:96-120 | given what a round does to the visited nodes and the candidates, as `Expand` states it, it visits a new node or leaves one candidate fewer: the termination measure |
| HnswSearch.Complete | src/impl/core/indices/hnsw.cpp:96-122 | with ef at least the number of reachable nodes, exactly these are returned |
| HnswSearch.SelectNeighbors | src/impl/core/indices/hnsw.cpp:125-161 | the heuristic is the min(n, size) smallest candidates |
| HnswSearch.Screen | src/impl/core/indices/hnsw.cpp:132-149 | over ascending candidates the screening accepts at most the first one, and the rest are discarded in order |
| HnswSearch.Backfill | src/impl/core/indices/hnsw.cpp:151-158 | the backfill completes the choice to the n smallest |
| HnswLink.LinkAll | src/impl/core/indices/hnsw.cpp:219-224 | exactly the selected nodes are linked, both ways |
| HnswLink.ShrinkOne | src/impl/core/indices/hnsw.cpp:229-253 | an overfull node keeps the links to its smallest ids, because all its candidates carry one and the same distance |
| HnswLink.ShrinkAll | src/impl/core/indices/hnsw.cpp:226-254 | exactly the overfull neighbours of the new node are shrunk; open for an overfull node linked to itself, whose set would be replaced under the loop |
| HnswLink.Connect | src/impl/core/indices/hnsw.cpp:213-262 | one layer is searched, linked and shrunk as above, and stays a layer of the graph: no self-links, bounded degree; connected and complete where no bound bites |
| HnswLink.NewNodeLinks | src/impl/core/indices/hnsw.cpp:213-262 | on one layer, of a node that had no links: a search of width max(ef, entry points) hands over the nearest of the nodes seen; the node is linked to the m nearest of these, ties by id; each links back and, beyond m links, keeps those to the smallest ids; all other nodes keep their links |
| HnswLink.NoShrink | src/impl/core/indices/hnsw.cpp:226-254 | with at most as many members as the degree bound no shrink changes anything |
| HnswLink.StaysMutual | src/impl/core/indices/hnsw.cpp:219-224 | linking both ways keeps all links two-way; with `NoShrink`, an insertion does up to the degree bound |
| HnswLink.StaysConnected | src/impl/core/indices/hnsw.cpp:219-224 | a node linked both ways to a member joins the connected part |
| HnswLink.StaysComplete | src/impl/core/indices/hnsw.cpp:219-224 | a node linked to all members keeps a complete layer complete |
| HnswLink.Unlink | src/impl/core/indices/hnsw.cpp:281-285 | for a node that is not linked to itself: removal takes it from its own out-neighbours only |
| HnswLink.NoTraceIffMutual | src/impl/core/indices/hnsw.cpp:281-285 | the effect of the code as a condition on the links: none to the node is left exactly when every node that points at it is pointed back at |
| HnswLink.UnlinkedKeeps | src/impl/core/indices/hnsw.cpp:281-285 | where all links are two-way, exactly the links from and to the node go; the layer keeps its invariant over the other members, two-way links, and completeness |
| HnswLink.OneWayLink | src/impl/core/indices/hnsw.cpp:219-254 | for every degree bound m: where m + 1 nodes are all linked with one another, a node with a larger id keeps its links and loses all links to it; removing a node that it points at leaves that link dangling |
| Hnsw.Index.Descend | src/impl/core/indices/hnsw.cpp:206-210 | the greedy descent, layer by layer, ends in one node, on layer `floor` or above when the graph is in order |
| HnswState.DescentSettles | src/impl/core/indices/hnsw.cpp:206-210 | the descent ends in one node, no farther than where it started and no farther than any of its neighbours on the last layer it went over |
| Hnsw.Index.ConnectLayers | src/impl/core/indices/hnsw.cpp:212-263 | layers from the drawn level down are rewired in turn, each searched from what the one above found; the others are untouched |
| Hnsw.Index.Insert | src/impl/core/indices/hnsw.cpp:187-273 | the exact effect of an insertion at any level, or of one whose vector has vanished; entry point and highest level move exactly if the new level is higher or there was none; the layered-graph invariant is kept, two-way links, connectedness and completeness of layer 0 where no degree bound bites |
| HnswEntry.InsertionLinks | src/impl/core/indices/hnsw.cpp:206-272 | of any insertion of a new id into a graph that keeps the invariant: each layer up to its level is linked as `HnswLink.NewNodeLinks` says, with width `ef_construction_` and at most `M0_` links on layer 0 and `M_` above; other layers stay, new ones are empty |
| HnswEntry.HandsDownAll | src/impl/core/indices/hnsw.cpp:213-262 | where `ef_construction_` has room for all that can be reached from the entry points of a layer, exactly that starts the search of the layer below |
| HnswState.InsertionSettles | src/impl/core/indices/hnsw.cpp:206-210 | an insertion below the highest layer starts its linking from one node, no farther than the entry point and no farther than any of its neighbours on the layer above |
| HnswState.FinishedIsGraph | src/impl/core/indices/hnsw.cpp:187-273 | the layered-graph invariant after an insertion: no self-links, edges join inserted nodes of the layer, bounded degrees, entry point on the highest level |
| HnswState.FinishedBase | src/impl/core/indices/hnsw.cpp:212-263 | layer 0 stays connected (complete) up to `M0_` + 1 nodes (and `ef_construction_` + 1) |
| Hnsw.Index.RemoveNode | src/impl/core/indices/hnsw.cpp:279-289 | for a node that is not linked to itself, exactly the node and its out-neighbours' links to it go, on every layer; otherwise the layers are left open |
| HnswState.RemovalsDefined | src/impl/core/indices/hnsw.cpp:277-291 | where no node is linked to itself, as in every graph that keeps the invariant, no removal comes upon such a node; and in whatever order they are made, they leave exactly the links of the nodes that stay, but for those to a removed node that pointed back |
| Hnsw.Index.RemovePending | src/impl/core/indices/hnsw.cpp:277-291 | the pending removals are made one after the other; where all links are two-way they stay so, and no link to a removed node is left on any layer |
| HnswState.RemovalsLeave | src/impl/core/indices/hnsw.cpp:277-291 | a graph with two-way links keeps its layer invariants through any removals, in any order; no link dangles, and a complete layer 0 stays complete |
| Hnsw.Index.RefreshEntryPoint | src/impl/core/indices/hnsw.cpp:292-307 | a lost entry point is replaced by a survivor on the highest level, or stays stale when there is none |
| HnswState.SurvivesIff | src/impl/core/indices/hnsw.cpp:277-307 | for every graph that keeps the layered-graph invariant: it holds after removals and the choice of an entry point if and only if nothing was inserted or some node that stays lives on the highest level, and every link from a node that stays to a removed one is answered |
| HnswState.SurvivesIffAnchored | src/impl/core/indices/hnsw.cpp:277-307 | on two-way layers the condition on links holds by itself, so that the invariant survives if and only if nothing was inserted or some node that stays lives on the highest level; layers stay two-way, and complete |
| HnswState.StaleAfterBuild | src/impl/core/indices/hnsw.cpp:292-307 | where no node of the highest level stays and others do, a build without insertions keeps a removed node without links as the entry point, in a graph of any size |
| Hnsw.Index.InsertPending | src/impl/core/indices/hnsw.cpp:308-311 | pending ids are inserted one after the other, in any order and at any levels; those without a vector are dropped |
| Hnsw.Index.Build | src/impl/core/indices/hnsw.cpp:275-315 | removals, entry point, insertions in turn, as far as no removed node is linked to itself; the pending sets are settled; each grade of the index is kept, removals included for `Tidy` and `Tiny`; an emptied index stays usable up to `M0_` nodes; what is left where no node of the highest level stays |
| Hnsw.Index.Init | src/impl/core/indices/hnsw.cpp:163-185 | a fresh graph built over the stored ids, of every grade that fits their number |
| Hnsw.Index.OnVectorsAdded | src/impl/core/indices/hnsw.cpp:364-375 | the new pending sets; each grade that fits the new number of nodes is kept if id 0 is not added and no inserted id is updated, or if links are two-way and a node that stays is on the highest level; so is `Refills` up to `M0_` nodes |
| Hnsw.Index.OnVectorsRemoved | src/impl/core/indices/hnsw.cpp:377-387 | the new pending sets; each grade is kept if no inserted id is removed, or if links are two-way and a node that stays is on the highest level; if all inserted ids are, `Refills` holds |
| Hnsw.Report | src/impl/core/indices/hnsw.cpp:347-355 | the k best candidates in order, or the first one among them without a vector |
| Hnsw.Index.SearchKnn | src/impl/core/indices/hnsw.cpp:317-356 | what any search answers from the graph it leaves, which is the old one with the pending updates built in, or the old one if there are none; the exact scan's answer for an index of grade `Small` or `Tiny`, or emptied and refilled with up to `M0_` nodes, with max(k, `ef_search_`) at least its size; with removals alone pending on up to `M_` + 1 and `ef_construction_` + 1 nodes, that answer if and only if nothing is left or a node on the highest level stays; in an index of any size where none does, the old entry point alone, or that its vector is missing, if nothing but that is inserted, and no node that stayed whatever is inserted |
| Hnsw.HitsAreBestSeen | src/impl/core/indices/hnsw.cpp:335-355 | of any search of any graph: the hits are the min(k, n, seen) best of the nodes that the search of layer 0 has seen, and it has seen the neighbours of the best max(min(k, n), `ef_search_`) of them |
| Hnsw.SearchSettles | src/impl/core/indices/hnsw.cpp:335-346 | where there are upper layers, the search of layer 0 starts from one node, no farther than the entry point and no farther than any of its neighbours on layer 1 |
| HnswWitnesses.RemovedEntryPoint | src/impl/core/indices/hnsw.cpp:292-307 | a reachable failure: after inserting ids 1 and 2 and removing 1, whose level was the highest, a search for anything reports that the vector of id 1 is missing |
| HnswEntry.OwnEntry | src/impl/core/indices/hnsw.cpp:187-273 | a node without links that is its own entry point is linked to itself, on exactly the layers that were there, up to its own level, that have room for a link; no other link changes |
| HnswEntry.JoinsClosed | src/impl/core/indices/hnsw.cpp:187-273 | an insertion whose entry point lies in a set of nodes that no link leaves joins that set: no link leaves the set and the node, and all others keep theirs |
| HnswEntry.SelfLinkRule | src/impl/core/indices/hnsw.cpp:187-273 | a node without links from or to it is linked to itself on layer 0 if and only if that layer was there, has room for a link, and the entry point is missing or the node itself |
| HnswStale.UpdatedEntry | src/impl/core/indices/hnsw.cpp:275-315 | where no node of the highest level stays, a build that inserts the entry point alone again keeps it as the entry point, leaves it no link to another node, and links it to itself if and only if `M0_` is not 0 |
| HnswStale.SurvivorsLost | src/impl/core/indices/hnsw.cpp:275-315 | where no node of the highest level stays and others do, searches after the build start among the inserted ids and the old entry point, and no link leads from these to a node that stayed |
| Hnsw.SearchIsAlone | src/impl/core/indices/hnsw.cpp:335-355 | a search whose entry point leads to no other node answers with that alone, or reports its vector missing |
| Hnsw.SearchStaysInside | src/impl/core/indices/hnsw.cpp:335-355 | a search answers from any set of nodes that has the entry point and that no link leaves |
| HnswWitnesses.UpdatedEntryPoint | src/impl/core/indices/hnsw.cpp:275-315 | reachable at any level of the second insertion: after inserting ids 1 and 2 and updating 1, whose level was the highest, node 1 is linked to itself, and a search for two answers with id 1 alone |
| HnswEmptied.EmptiedIsBare | src/impl/core/indices/hnsw.cpp:277-307 | removing all nodes of a graph that keeps the invariant, however large, leaves no link and no entry point, and as many layers |
| HnswEmptied.SelfLinkIff | src/impl/core/indices/hnsw.cpp:187-273 | the first node of a bare graph is linked to itself on exactly the layers that were there, up to its own level, that have room for a link; and to nothing else |
| HnswEmptied.FirstSelfLinkIff | src/impl/core/indices/hnsw.cpp:275-315 | a build that inserts one node and keeps no other links it to itself if and only if there were layers before and `M0_` is not 0 |
| HnswWitnesses.SelfLinkedNode | src/impl/core/indices/hnsw.cpp:275-315 | reachable at any levels: add id 1, remove it, add id 2, with a build after each, and node 2 is linked to itself |
| HnswEmptied.StaysUsable | src/impl/core/indices/hnsw.cpp:187-273 | all the same, up to `M0_` nodes the links join inserted nodes, the entry point is one of them, and layer 0 is connected |
| HnswEmptied.Refilled | src/impl/core/indices/hnsw.cpp:275-315 | so every build after which an emptied index has at most `M0_` nodes leaves a graph that searches can use |
| HnswCrowded.LastIsUnseen | src/impl/core/indices/hnsw.cpp:187-273 | a node of larger id that joins `M0_` + 1 completely linked ones on layer 0 gets `M0_` links of its own and none to it, and neither the entry point nor any other node leads to it |
| HnswCrowded.RemovalDangles | src/impl/core/indices/hnsw.cpp:277-291 | removing any nodes that it points at, in any order and with whichever others, leaves its links to them dangling |
| Hnsw.UnseenIsMissed | src/impl/core/indices/hnsw.cpp:335-355 | a node that nothing leads to is in no answer |
| HnswWitnesses.CrowdedIndex | src/impl/core/indices/hnsw.cpp:187-273 | ids 1 to `M0_` + 2 in this order on layer 0: a search for as many results misses the last one, and is not exact |
| Hnsw.SearchIsExact | src/impl/core/indices/hnsw.cpp:335-355 | a search of a graph whose links join inserted nodes and whose layer 0 is connected, with room for all of them, answers like the exact scan |
| HnswState.BaseSearchIsExact | src/impl/core/indices/hnsw.cpp:335-346 | a bottom search with room for all nodes of a connected layer 0, started at any of them, finds exactly these |
| Pending.AddedFacts | src/impl/core/indices/hnsw.cpp:364-375 | the pending sets after an add, as sets |
| Pending.RemovedFacts | src/impl/core/indices/hnsw.cpp:377-387 | the pending sets after a removal, as sets: an id that waits is taken off, and also marked for removal if it is repeated; any other is marked |
| Interleaving.StepKeepsAgreement | src/impl/core/collection.cpp:20-85 | each step of any thread (map write, notification, removal, new index, build) keeps collection and index in agreement |
| Interleaving.RunsAgree | src/impl/core/collection.cpp:20-85 | in every interleaving each stored id whose add is not in flight waits for insertion or is inserted, not about to be removed, and linked with its current vector |
| Interleaving.BuildCatchesUp | src/impl/core/indices/hnsw.cpp:275-315 | after a build only ids with an add in flight can be missing or out of date |
| Interleaving.QuiescentBuildAgrees | src/impl/core/indices/hnsw.cpp:275-315 | with no add in flight a build leaves exactly the collection's ids and vectors in the graph |
| HnswInterleaving.StoriesKeepGrade | src/impl/core/collection.cpp:20-85 | with the graph beside the pending sets: in every interleaving of adds, updates, removals and builds the graph holds its grade, as long as the nodes fit and, where inserted ids are to be removed or updated, links are two-way and a node that stays is on the highest level |
| HnswInterleaving.QuietSearchIsExact | src/impl/core/indices/hnsw.cpp:317-356 | so a search right after a build with no add in flight answers like the exact scan, for the grades with a connected layer 0 |
| HnswInterleaving.AddsHaveRoom | src/impl/core/collection.cpp:20-52 | histories in which only new ids are added meet that condition up to `M0_` + 1 ids |
| IvfInterleaving.ActKeepsCoverage | src/impl/core/collection.cpp:20-85 | the same steps beside an IVF index, which looks vectors up when it is notified: each keeps the coverage of the ids with no add in flight, if the last build converged |
| IvfInterleaving.PlaysKeepCoverage | src/impl/core/collection.cpp:20-85 | so it holds in every interleaving |
| IvfInterleaving.QuietIsFound | src/impl/core/indices/ivfflat.cpp:67-120 | and a search for the vector of such an id finds something at least as near |
| KMeansSteps.FindNearest | src/include/core/utils/k_means.h:67-79 | the nearest centre, lowest index on ties |
| KMeansSteps.Assign | src/include/core/utils/k_means.h:60-82 | every vector is listed with its nearest centre, in order |
| KMeansSteps.MeanOf | src/include/core/utils/k_means.h:90-104 | the coordinate-wise mean of a list of vectors |
| KMeansSteps.Update | src/include/core/utils/k_means.h:84-111 | non-empty clusters move to their means; the sum of squares falls by size times squared shift; the flag tells whether a centre moved |
| KMeansSteps.UpdateOne | src/include/core/utils/k_means.h:86-110 | one centre: moved to the mean of its cluster unless that is empty, with what this takes off the objective |
| Inertia.ParallelAxis | src/include/core/utils/k_means.h:90-104 | the parallel-axis identity: squared distances to any point are those to the mean plus size times the squared offset |
| Inertia.MoveToMean | src/include/core/utils/k_means.h:84-111 | what moving one centre to its mean takes off the objective |
| Inertia.NearestLowers | src/include/core/utils/k_means.h:64-82 | reassignment to nearest centres never raises the objective |
| Descent.IterationLowers | src/include/core/utils/k_means.h:54-112 | a changing round strictly lowers the within-cluster sum of squares |
| Descent.NoRecurrence | src/include/core/utils/k_means.h:54-112 | no assignment recurs across changing rounds |
| Descent.HistoryIsShort | src/include/core/utils/k_means.h:54-112 | so there are at most k^n changing rounds |
| KMeans.Iterate | src/include/core/utils/k_means.h:57-111 | one round of assignment and update, with its descent |
| KMeans.OwnCentresStay | src/include/core/utils/k_means.h:54-112 | where the vectors themselves are the centres, a round with the Euclidean distance moves none |
| KMeans.Run | src/include/core/utils/k_means.h:30-114 | the centres round by round from the first k vectors; the output partitions all indices over min(k, n) centroids; when it stops unchanged all vectors lie with their nearest centroid and centroids are means; it does so within k^n + 1 rounds, and in the first one for n <= k and the Euclidean distance |
| Heaps.Push | src/impl/core/indices/ivfflat.cpp:101-107 | the bounded max-heap keeps the k best of what it has seen |
| Heaps.BestIsTopK | src/impl/core/indices/ivfflat.cpp:101-118 | emptied and reversed, it yields the k best in (score, id) order, ties included |
| Heaps.Drain | src/impl/core/indices/ivfflat.cpp:112-118 | popping and reversing |
| IvfSearch.Search | src/impl/core/indices/ivfflat.cpp:67-120 | the result is `Answer`: the k best among the vectors listed by the first `n_probe_` clusters in (distance, index) order; true exactly when there is a result; `n_probe_` clusters are probed, or all if there are fewer |
| IvfSearch.ProbedIff | src/impl/core/indices/ivfflat.cpp:79-96 | a cluster is probed if and only if fewer than `n_probe_` clusters come before it by (distance of the centroid, position) |
| IvfSearch.AnswersReach | src/impl/core/indices/ivfflat.cpp:92-119 | as the caller sees it: every hit is an id that such a cluster lists and that is stored, with its distance; and each such id is a hit, or there are k hits none of which is above it |
| IvfSearch.FullProbeIsExactIff | src/impl/core/indices/ivfflat.cpp:83-117 | probing all clusters answers every k like the exact scan if and only if the clusters list each stored id exactly once |
| IvfSearch.MoreProbesNoWorse | src/impl/core/indices/ivfflat.cpp:79-117 | more probes never give fewer results, and no i-th score gets larger |
| IvfSearch.ProbesGrow | src/impl/core/indices/ivfflat.cpp:92-96 | the clusters probed are a prefix of those probed with a larger `n_probe_`, in (distance, index) order, and what they list grows |
| IvfSearch.SelfRecall | src/impl/core/indices/ivfflat.cpp:67-120 | when each stored id is listed with its nearest centroid, a stored vector is found: the first result is no farther than it is from itself |
| IvfSearch.EuclideanSelfRecall | src/impl/core/indices/ivfflat.cpp:67-120 | for the Euclidean distance the first score is 0 |
| IvfSearch.CoveredIsFound | src/impl/core/indices/ivfflat.cpp:67-120 | self-recall for a single id: it is enough that this id is listed with the centroid nearest to its vector |
| IvfLists.OnceAfterAddIff | src/impl/core/indices/ivfflat.cpp:178-195 | after an incremental add every stored id is still listed once if and only if the batch brings distinct new ids |
| IvfLists.UpsertedAgain | src/impl/core/indices/ivfflat.cpp:178-195 | upserting any stored id once more lists it twice, and a search of all clusters for n + 1 results yields n + 1, where n ids are stored |
| IvfLists.BuildCovers | src/impl/core/indices/ivfflat.cpp:49-64 | a converged build lists each id with the centroid nearest to its vector |
| IvfLists.BuildListsAll | src/impl/core/indices/ivfflat.cpp:49-64 | a build lists every id once |
| IvfLists.BuiltFacts | src/impl/core/indices/ivfflat.cpp:23-65 | for k > 0, min(k, n) clusters that list each stored id once, and with its nearest centroid if k-means stopped by itself |
| IvfLists.AppendedFacts | src/impl/core/indices/ivfflat.cpp:178-195 | an incremental add moves no centroid and unlists nothing; the stored ids of the batch are listed with their nearest centroids, and what was covered but for them is covered |
| IvfLists.AppendedInOrder | src/impl/core/indices/ivfflat.cpp:178-195 | each list keeps what it had, followed by the stored ids of the batch that are nearest to its centroid, in the order of the batch |
| IvfLists.ErasedFacts | src/impl/core/indices/ivfflat.cpp:197-213 | an incremental removal moves no centroid; each id is listed once less if it was listed, and every other id stays in its lists |
| IvfLists.FirstListingGoes | src/impl/core/indices/ivfflat.cpp:197-213 | where an id is listed for the first time, in the order of the clusters, that one listing goes and nothing else changes |
| IvfLists.ErasingCovers | src/impl/core/indices/ivfflat.cpp:197-213 | so coverage of the ids that are stored is kept |
| IvfLists.ErasingListsOnce | src/impl/core/indices/ivfflat.cpp:197-213 | and where each id was listed once, each stored id still is |
| Ivf.Index.Gather | src/impl/core/indices/ivfflat.cpp:33-47 | ids and vectors in any order of the hash set |
| Ivf.Index.Build | src/impl/core/indices/ivfflat.cpp:23-65 | the clusters are those of a k-means run of at most 100 rounds over the stored vectors; it converges for the Euclidean distance if there are at most `k_` vectors, or min(k, n)^n < 100 |
| Ivf.Index.FindNearestCluster | src/impl/core/indices/ivfflat.cpp:159-176 | the rule of k-means: nearest centroid, lowest index on ties |
| Ivf.Index.AddVectorsIncremental | src/impl/core/indices/ivfflat.cpp:178-195 | the very lists: each stored id in turn goes to the end of the list of its nearest centroid, and nothing else changes |
| Ivf.Index.RemoveVectorsIncremental | src/impl/core/indices/ivfflat.cpp:197-213 | the very lists: each id in turn loses its first occurrence in the first cluster that lists it, and nothing else changes |
| Ivf.Index.OnVectorsAdded | src/impl/core/indices/ivfflat.cpp:122-139 | first build, incremental add or threshold rebuild: the counter, a 64-bit one, is the number of changes since the last build, or 0 after one; with the clusters that each leaves; coverage is kept over every history of converged builds |
| Ivf.Index.OnVectorsRemoved | src/impl/core/indices/ivfflat.cpp:141-157 | incremental erase or rebuild, with the counter likewise and the clusters; nothing happens to an empty index; coverage and once-listing are kept |
| Ivf.Index.SearchForTopK | src/impl/core/indices/ivfflat.cpp:67-120 | exact with all clusters probed and each id listed once; finds every stored vector where coverage holds, with score 0 for the Euclidean distance; true exactly when there is a result |
| Batches.UpsertAll | src/impl/core/collection.cpp:22-41 | the map after a batch, later entries winning, and the counts of added and updated ids |
| Batches.UpsertedFacts | src/impl/core/collection.cpp:26-40 | exactly the ids of the batch change, each to a vector the batch gives it |
| Batches.LastEntryStays | src/impl/core/collection.cpp:26-40 | of several entries for one id the last one is stored |
| Batches.EraseAll | src/impl/core/collection.cpp:66-75 | the map after a removal, and the ids erased, each once |
| VectorCollection.Collection.AddVectors | src/impl/core/collection.cpp:20-52 | map, counts, and every index told: the pending sets of each HNSW index and the clusters and counter of each IVF index are exactly those that its hook leaves; all stay in step; an exact IVF index stays exact under distinct new ids, an exact HNSW one under any non-zero ids up to `M0_` + 1 nodes of which none is inserted, or up to `M_` + 1 and `ef_construction_` + 1 nodes with one left on the highest level, or up to `M0_` nodes if it is, or was, emptied |
| VectorCollection.Collection.RemoveVectors | src/impl/core/collection.cpp:63-85 | likewise; an exact HNSW index stays exact if the removed ids were not built in yet, or up to `M_` + 1 and `ef_construction_` + 1 nodes with one left on the highest level, or if none is left; an exact IVF index always does |
| VectorCollection.Collection.AddIndex | src/impl/core/collection.cpp:87-137 | true exactly for a known type with parameters of that type; a taken name keeps its index though the answer is true; a new index has the given parameters, is built over what is stored, and exact where small |
| VectorCollection.Collection.SearchForTopK | src/impl/core/collection.cpp:150-165 | through any index, of any size, the answer is one that the index can give: for HNSW what a search of the graph with the pending updates built in answers, for IVF the two-stage search over the clusters; any index that is exact and searches all of itself answers like the exact scan; an IVF index finds stored vectors, Euclidean ones with score 0; all indices stay in step, and exact; the flag is true for the scan and for HNSW, and for IVF exactly when there are results; other indices are not touched |
| Bytes.LeRoundTrip | src/impl/core/collection.cpp:181-196 | w little-endian bytes keep a number modulo 256^w |
| Bytes.FourBytes | src/impl/core/collection.cpp:181-196 | 32-bit integers are written least significant byte first |
| Bytes.LittleEndian | src/impl/core/collection.cpp:181-196 | in general, byte i is the digit of weight 256^i |
| Wire.VectorRoundTrip | src/impl/core/float_vector.cpp:73-136 | vectors, metadata and its presence flag included |
| Wire.VectorLayout | src/impl/core/float_vector.cpp:73-84 | offsets: the signed dimension in bytes 0 to 3, the data from byte 4, and the flag of the metadata right after them, 0 or 1 |
| Wire.ParamsRoundTrip | src/impl/core/indices/index.cpp:11-30 | index type and parameters, by the type tag |
| Wire.ParamsLayout | src/include/core/indices/hnsw.h:56-62 | offsets: the tag, 1 for HNSW and 0 for IVF, the distance, `M_`, `ef_construction_` and `ef_search_` in 4 bytes each, or `k_` and `n_probe_` in 4 and `rebuild_threshold_` in 8 |
| Tables.TableRoundTrip | src/impl/core/collection.cpp:187-208 | a counted table written in any iteration order |
| Persistence.CollectionRoundTrip | src/impl/core/collection.cpp:176-249 | for every iteration order and every suffix, reading back yields the same collection and consumes exactly the written bytes |
| Persistence.FileLayout | src/impl/core/collection.cpp:181-196 | offsets: the length of the name, the name, the dimension, the number of vectors, their table, the number of indices, and theirs |
| Persistence.FileReadsBackIff | src/impl/core/collection.cpp:195-208 | a file reads back as its collection if and only if no index is of an unsaved kind: the count written includes those passed over |
| Persistence.UnsavedRunsShort | src/impl/core/collection.cpp:195-208 | otherwise reading runs off the end of the file |
| Streams.SerializeVector | src/impl/core/float_vector.cpp:73-98 | appends the encoding to the stream |
| Streams.Serialize | src/impl/core/collection.cpp:176-209 | appends the encoding of the collection, in the orders its maps are iterated |
| Streams.DeserializeVector | src/impl/core/float_vector.cpp:100-136 | reads what the parser of vectors describes, and stands behind it |
| Streams.DeserializeIndex | src/impl/core/indices/index.cpp:11-30 | likewise for index type and parameters |
| Streams.ReadFields | src/include/core/indices/hnsw.h:64-73 | the parameters in their order and widths |
| Streams.Deserialize | src/impl/core/collection.cpp:211-249 | likewise for collections: the first vector of an id and the last index of a name win |
| Databases.NameStatus | src/impl/core/utils/utils.cpp:41-55 | exactly the names of 1 to 128 letters, digits and `_` are accepted, which have no dot; an empty name, one that is too long and one with another character are told apart, in this order |
| Databases.Database.AddCollection | src/impl/core/database.cpp:66-75 | status and new contents |
| Databases.Database.DeleteCollection | src/impl/core/database.cpp:77-87 | status and new contents |
| Databases.Database.AddVectors | src/impl/core/database.cpp:22-39 | a batch goes in whole, or, exactly if one vector has another dimension modulo 2^32 than the collection, not at all; so every stored vector keeps the dimension of its collection |
| Databases.Database.DeleteVectors | src/impl/core/database.cpp:104-115 | status and new contents |
| Databases.Database.AddIndex | src/impl/core/database.cpp:117-131 | success even where no index was made; afterwards the index is there under its name if the name was free and the parameters are those of the type, and otherwise nothing has changed |
| Directory.FileNames | src/impl/core/database.cpp:161-173 | `name.db.tmp` is written and renamed to `name.db`; only the latter is loaded |
| Directory.FilesDiffer | src/impl/core/database.cpp:161-173 | different collections have different files |
| Databases.Database.Save | src/impl/core/database.cpp:148-182 | success, and the directory after a save |
| Databases.Database.Load | src/impl/core/database.cpp:184-220 | success and the database after a load, in any order of the files, if every file parses, as all do after saves (`Directory.StoredFilesParse`) |
| Databases.LoadedAllSaved | src/impl/core/indices/index.cpp:11-30 | no file yields an index of an unsaved kind |
| Databases.SaveAndLoad | src/impl/core/database.cpp:148-220 | a save into a directory without `.db` files and a load into a new database succeed and restore exactly the same collections |
| Databases.Restart | src/impl/core/database.cpp:148-220 | and whatever the directory stored before comes back too, but for the collections saved again |
| Directory.StoredFilesParse | src/impl/core/database.cpp:184-220 | in a directory that stores a database every file parses |
| Directory.LoadingRestores | src/impl/core/database.cpp:184-220 | loading reads back exactly what the directory stores |
| Storage.LoadYieldsLatest | src/impl/core/database.cpp:148-220 | after any history of saves into a directory without `.db` files, loading into an empty database yields each collection as it was saved last |
| Storage.RestoredIff | src/impl/core/database.cpp:148-220 | that is the last saved database if and only if no collection saved earlier is missing from it: files of deleted collections are never removed, and come back |
| Storage.DeletedComesBack | src/impl/core/database.cpp:77-182 | any database that can be saved, saved once, emptied and saved again, is loaded whole: there are such directories, and they yield all of it |
| WorkerPool.Queue.Submit | src/include/grpc_server/worker_pool.h:72-83 | accepts, at the end of the queue, if and only if fewer than 10000 tasks are queued |
| WorkerPool.Queue.TakeNext | src/include/grpc_server/worker_pool.h:32-36 | takes the oldest task; nothing once stopped |
| WorkerPool.Queue.Stop | src/include/grpc_server/worker_pool.h:85-92 | sets the flag; tells the first call from later ones |
| WorkerPool.RunsConserve | src/include/grpc_server/worker_pool.h:25-83 | in every interleaving the accepted tasks are the started ones followed by the queued ones; the queue is bounded; started tasks have ended or run |
| WorkerPool.AcceptedIff | src/include/grpc_server/worker_pool.h:72-83 | in every run: a task is accepted if and only if fewer than 10000 accepted ones have not started |
| WorkerPool.WokenRuns | src/include/grpc_server/worker_pool.h:32-36 | in every run: until the stop a woken worker runs the oldest accepted task that has not started |
| WorkerPool.StartsInOrder | src/include/grpc_server/worker_pool.h:25-47 | tasks start in order, each at most once, and none after the stop |
| WorkerPool.WorkersLeave | src/include/grpc_server/worker_pool.h:85-97 | after the stop every worker step uses up one of finitely many, and no worker is stuck: the joins end |
| WorkerPool.AfterShutdown | src/include/grpc_server/worker_pool.h:85-97 | then all started tasks have ended, and the queued ones never start |
| Rpc.Handlers.RunFlow | src/impl/grpc_server/server.cpp:62-95 | one event of the completion queue |
| Rpc.Handlers.Process | src/impl/grpc_server/server.cpp:220-239 | request checks, then a task or an immediate `Finish` |
| Rpc.Handlers.RunTask | src/impl/grpc_server/server.cpp:378-409 | the task bodies, exceptions included; `RpcRuns.TaskReturned` and `RpcRuns.TaskThrew` say what that is |
| Rpc.Handlers.HandleUnknownError | src/impl/grpc_server/server.cpp:362-366 | a stream finishes with its last status |
| Rpc.Handlers.DoRead | src/impl/grpc_server/server.cpp:368-373 | a stream asks for the next batch |
| Rpc.StepKeepsOwnership | src/impl/grpc_server/server.cpp:62-95 | every step keeps what is known of live and deleted handlers |
| Rpc.BatchSucceeded | src/impl/grpc_server/server.cpp:399-403 | a stream that goes on has applied all its batches so far, successfully |
| Rpc.BatchReported | src/impl/grpc_server/server.cpp:394-398 | a stream that fails reports the failing batch's status |
| Rpc.RunsKeepOwnership | src/impl/grpc_server/server.cpp:62-95 | in every run no handler is used or deleted after its deletion; a live one is referred to by exactly one operation or task (none once an exception has lost a stream); `Finish` is issued at most once; a finished stream has applied its batches in order up to the first failure and reports that, OK if there was one and all succeeded |
| RpcRuns.BatchArrives | src/impl/grpc_server/server.cpp:62-95 | in every run: a batch that comes in is queued behind those before it, unless it is that of a unary call and fails the check, which is answered with `INVALID_ARGUMENT` |
| RpcRuns.OperationFails | src/impl/grpc_server/server.cpp:73-78 | in every run: an operation that fails ends the call with an internal error, a stream that has stored a batch with OK |
| RpcRuns.TaskReturned | src/impl/grpc_server/server.cpp:254-264 | in every run: a task that returns leaves the database as the update makes it, records the answer with its own handler, and reports it, or asks for the next batch of a stream |
| RpcRuns.TaskThrew | src/impl/grpc_server/server.cpp:258-264 | in every run: an exception leaves the database as it is by then; a unary call reports an internal error, a stream is left with nothing pending |
| RpcRuns.OnlyTasksStore | src/impl/grpc_server/server.cpp:62-95 | in every run: no other step changes the database |
| RpcRuns.DatabaseIsReplayed | src/impl/grpc_server/server.cpp:378-409 | over all runs: the database is the initial one after all answered batches, one by one in the order in which their tasks ended, and each got the answer that belongs to it there; exceptions count as what they leave |
| RpcRuns.RecordsAreChanges | src/impl/grpc_server/server.cpp:378-409 | over all runs: the answers that a handler has recorded are exactly those that the database has given to its batches, in order, alive or deleted |
| RpcRuns.AcknowledgedIsStored | src/impl/grpc_server/server.cpp:387-403 | over all runs: a call that has been told OK has sent batches, and the database has taken each of them, in order; so too when its handler is gone |
| RpcRuns.CallsAreAwaited | src/impl/grpc_server/server.cpp:73-84 | over all runs, before the shutdown: each kind of call is awaited by as many handlers as at the start, less one for every request operation that failed, which makes no new handler |
| SplitMix.UnmixUndoes | src/include/core/utils/splitmix_hash.h:12-18 | the hash has a left inverse |
| SplitMix.SplitMixUndoes | src/include/core/utils/splitmix_hash.h:12-18 | which is a right inverse too |
| SplitMix.XorShiftUndone | src/include/core/utils/splitmix_hash.h:14-17 | xor-shifts are undone |
| SplitMix.TimesUndone | src/include/core/utils/splitmix_hash.h:15-16 | multiplication by an odd factor is undone modulo 2^64 |
| SplitMix.HashIsInjective | src/include/core/utils/splitmix_hash.h:19-23 | distinct ids have distinct hashes, for every offset |
| SplitMix.HashIsOnto | src/include/core/utils/splitmix_hash.h:19-23 | and every hash value occurs |

## Left out

- Floating point: coordinates and scores are reals, without rounding, NaN or infinities; the centroids that k-means stores are not rounded to `float`.
- `numeric_limits<double>::max()`: in k-means and `find_nearest_cluster` it stands for "none yet", so distances are taken to be below it; in the HNSW index it is the parameter `farthest`.
- Distance functions: a distance is any function of two vectors; only the Euclidean one is looked into, as a non-negative number whose square is the sum of squared differences, and `std::sqrt` itself is not modelled.
- The level draw of the HNSW index: any natural number, so `ml_` and the random generator are not modelled. For `M_` = 1 the program's `ml_` is infinite and its draw undefined, so what is stated at that value says nothing about it.
- Hnsw.Index.Insert: keeps the graph invariant for non-zero ids that are not in the graph yet; id 0 doubles as the mark of a missing entry point, as the condition `id != 0` says.
- Hnsw.Index.Build: what removals leave is stated step by step as long as no removed node is linked to itself; the graph invariant is claimed for removals from indices of up to `M_` + 1 nodes with a node left on the highest level, since beyond that links can dangle (`HnswLink.OneWayLink`) and without that it fails (`HnswState.SurvivesIffAnchored`).
- Hnsw.Index.RemoveNode: removing a node linked to itself is undefined in the program; the layers are left open then, and what is said of the inserted and pending ids holds of the program up to that point only.
- HnswLink.ShrinkAll: likewise for a new node that is linked to itself and overfull, which takes dangling links to an id that is inserted again.
- Empty neighbour sets that the program creates by looking nodes up: a node without an entry has no neighbours.
- Recall of large HNSW graphs: no claim beyond the best-first order of the walk, local optimality and the best of the visited nodes.
- VectorCollection.Collection.AddVectors: one call at a time; in the program other threads can run between the map write and the notification, which `Interleaving` and `IvfInterleaving` model for one index each.
- VectorCollection.Collection.AddIndex: creation and initialisation are one step, and do not fail.
- VectorCollection.Collection.SearchForTopK: results carry distances and ids; the copies of the vectors are left out.
- Locks, condition variables and deadlocks, including the rebuild of an IVF index while `remove_vectors` holds the vector lock: the removal hook is one step.
- Streams.Deserialize: a stream that ends early is reported as such, where the program goes on with whatever its variables hold; `Databases.Database.Load` leaves open what such a file yields.
- Databases.Database.Save: the directory is described for plain names only, which all names accepted by `add_collection` are; files that cannot be written or renamed are left out.
- HnswInterleaving.QuietSearchIsExact: does not cover an index that is emptied and refilled, which `VectorCollection` covers for one call at a time.
- HnswStale.SurvivorsLost: where the entry point is inserted again together with other ids, these must fit under the degree bounds; beyond them it can be overfull and linked to itself, which leaves open what the program does.
- IvfInterleaving.QuietIsFound: the notification of an IVF index is one step, though other threads can write vectors while it looks them up, or be notified between its test for an empty index and its lock; the rebuild counter may stand anywhere at each step.
- Databases.Database.Load: files are read one at a time without concurrent changes, and I/O failures are left out.
- Databases.Database.AddVectors: the collections of the database are values here, with their indices reduced to what is saved of them; `VectorCollection` has the indices themselves.
- Queries that only copy fields out: `get_all_collections`, `get_collection_info`, `get_index_params`, `get_vector_by_id`.
- Rpc.RunsKeepOwnership: each event handler and each task body is one step, so the window between posting a read and setting the state is closed; the worker pool is not full when a handler submits; the branch of `delete_vector_handler` without ids, which finishes twice, is not among the handlers.
- The other unary handlers: they have the shape of the upsert handler.
- gRPC, protobuf, configuration, logging and the unused `heap.h`.
