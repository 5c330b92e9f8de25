# Image retrieval core: points, bounded priority queue, KD array, KD tree, configuration

This project models the core of a content-based image retrieval program.
The program reads a configuration file. It builds a KD tree over the SIFT
feature points of every image in the database. For each feature of a query
image it finds the `spKNN` nearest database features. Each hit counts one
vote for the image the feature came from, and the images are ranked by
their votes. The model has one Dafny module per source file:

- `Points` (`point.dfy`), from `SPPoint.c`. A point is a value: its
  coordinates, dimension and image index. Its squared Euclidean distance is
  the method `L2SquaredDistance`, a loop proved equal to the function
  `SqDist`.
- `BPQueue` (`bpqueue.dfy`), from `SPBPriorityQueue.c`. This is the bounded
  priority queue. The class `Queue` keeps the source's ring buffer
  `elements` with its `maxSize`, `size` and `start` fields. A ghost sequence
  `Contents` gives the logical order. `Valid()` ties the buffer to
  `Contents` and states that `Contents` is sorted by (value, index), fits the
  capacity and holds only admissible elements. `Enqueue` keeps the source's
  insertion pass, which carries `temp` forward slot by slot. It is proved
  equal to the pure specifications `EnqueueMsg` and `EnqueueContents`.
- `KDArrays` (`kdarray.dfy`), from `SPKDArray.c`. A KD array is a value: the
  points plus one sorted row of positions per axis. `Init` and `Split` run
  the source's loops over scratch arrays (`elements`, `X`, and `newIndex`,
  which is the source's `map`). They are proved equal to the functions
  `InitSpec` and `SplitSpec`, which the tree build uses.
- `KDTrees` (`kdtree.dfy`), from `SPKDTreeNode.c`. The tree is a datatype
  built by structural recursion (`Build`, `Create`, `CreateNode`,
  `CreateLeaf`). `rand()` is an oracle `rand: nat -> nat` indexed by a
  counter of draws. The k-NN search is a method that recurses over the tree
  and mutates a shared `BPQueue.Queue`. It is proved equal to the function
  `Search`, and `Search` is proved to keep the k smallest distances despite
  its pruning.
- `Configs` (`config.dfy`), from `SPConfig.c`. It covers the defaults, the
  rule each key applies to its value, the line loop, the mandatory-field
  check, the clamp of the number of similar images, the enum mappings and
  the path builders. The class `Config` holds the struct's fields and its
  methods update them in place. Each method is proved equal to a pure
  function over the `Settings` value.
- `Aggregation` (`aggregation.dfy`), from `main_aux.cpp`. It covers the
  flattening of the per-image feature arrays, the vote counting loop, the
  comparator `cmpfunc` and the ranking of the images.
- `Sequences` (`sequences.dfy`) holds generic sequence definitions: filter,
  map, pairwise order, insertion sort and sum. `Wrappers` (`wrappers.dfy`)
  holds `Option`.

Coordinates and distances are `real`. A NULL pointer is `None` or `null`,
except for a `BPQueue.Queue` receiver and `Peek`'s output element, which
are never NULL (see Left out).
`qsort` with a comparator is modelled by the insertion sort
`Sequences.SortBy` under the strict order the comparator induces. Both
comparators in the source never return 0, so the sorted result is unique
(`KDArrays.SortedPermutationEqual`, `Aggregation.RankingCorrect`).

## Model

| member | source | states |
|---|---|---|
| `Points.Create` | SPPoint.c:13-33 | The result is NULL exactly when data is NULL, dim <= 0 or index < 0; otherwise it is a well-formed point |
| `Points.CreateThenGet` | SPPoint.c:52-68 | A created point reports the given dimension and index, and coordinate i is data[i] for every axis i < dim |
| `Points.Copy` | SPPoint.c:36-41 | The copy has the same dimension, index and coordinates as the source |
| `Points.L2SquaredDistance` | SPPoint.c:70-82 | The loop returns the sum over all axes of (p_i - q_i)^2, which is never negative |
| `Points.SqDistNonNegative` | SPPoint.c:76-81 | The squared distance of equal-length points is >= 0, so the search's enqueue never hits the negative-value rejection |
| `Points.SqDistSymmetric` | SPPoint.c:70-82 | The squared distance is symmetric |
| `Points.SqDistSelf` | SPPoint.c:70-82 | The distance from a point to itself is 0 |
| `Points.CopyAtDistanceZero` | SPPoint.c:36-41 | A point and its copy are at distance 0 |
| `Points.SqDistAxisBound` | SPPoint.c:70-82 | The squared distance is at least the squared gap on any single axis (the bound behind the search's pruning) |
| `BPQueue.Queue.constructor` | SPBPriorityQueue.c:15-33 | A new queue is empty with size 0, start -1 and capacity maxSize |
| `BPQueue.Queue.Create` | SPBPriorityQueue.c:15-33 | maxSize <= 0 gives NULL; otherwise a fresh empty queue with start -1 and the given capacity |
| `BPQueue.Queue.Copy` | SPBPriorityQueue.c:36-47 | The copy is a fresh queue with the same maxSize, size, start, buffer and logical contents |
| `BPQueue.Queue.Clear` | SPBPriorityQueue.c:58-64 | Clear empties the queue (size 0, start -1) and keeps the buffer and capacity |
| `BPQueue.Queue.Size` | SPBPriorityQueue.c:66-70 | The size is the number of logical elements |
| `BPQueue.Queue.GetMaxSize` | SPBPriorityQueue.c:72-76 | The capacity is the buffer length and bounds the number of elements |
| `BPQueue.Queue.IsEmpty` | SPBPriorityQueue.c:198-205 | The queue is empty exactly when it holds no element |
| `BPQueue.Queue.IsFull` | SPBPriorityQueue.c:207-214 | The queue is full exactly when it holds maxSize elements |
| `BPQueue.Queue.MinValue` | SPBPriorityQueue.c:184-189 | On a non-empty queue, the value of the logical first element |
| `BPQueue.Queue.MaxValue` | SPBPriorityQueue.c:191-196 | On a non-empty queue, the value of the logical last element, never below MinValue |
| `BPQueue.Queue.Peek` | SPBPriorityQueue.c:158-169 | EMPTY and an untouched output on an empty queue; otherwise SUCCESS and a copy of the first element |
| `BPQueue.Queue.PeekLast` | SPBPriorityQueue.c:171-182 | EMPTY and an untouched output on an empty queue; otherwise SUCCESS and a copy of the last element |
| `BPQueue.Queue.Dequeue` | SPBPriorityQueue.c:142-156 | EMPTY and no change on an empty queue; otherwise SUCCESS and exactly the first element removed, the rest in order, with the invariant kept |
| `BPQueue.Queue.InsertionPass` | SPBPriorityQueue.c:110-132 | The slot-by-slot pass leaves the old sequence with the new element spliced in at its sorted position, and hands back the old last element |
| `BPQueue.Queue.InsertInOrder` | SPBPriorityQueue.c:101-138 | Inserting a value not above the maximum yields EnqueueContents and keeps the queue invariant |
| `BPQueue.Queue.Enqueue` | SPBPriorityQueue.c:78-140 | The message is EnqueueMsg and the new contents are EnqueueContents of the old contents; the ring buffer stays sorted and within capacity |
| `BPQueue.LessIsStrictOrder` | SPBPriorityQueue.c:101-132 | The (value, index) order used by the insertion pass is a strict order |
| `BPQueue.EnqueuePreservesInvariant` | SPBPriorityQueue.c:78-140 | After any enqueue the contents are sorted by (value, index), within capacity and admissible |
| `BPQueue.EnqueueRejectedUnchanged` | SPBPriorityQueue.c:78-99 | INVALID_ARGUMENT exactly for a negative index or value; FULL exactly when the queue is full and the value exceeds the maximum; a rejection changes nothing |
| `BPQueue.EnqueueHoldsOffered` | SPBPriorityQueue.c:78-140 | Every element held after an enqueue was held before or is the element offered |
| `BPQueue.EnqueueSize` | SPBPriorityQueue.c:96-138 | The size grows by one exactly on a successful enqueue into a non-full queue; otherwise it is unchanged |
| `BPQueue.InsertPassResult` | SPBPriorityQueue.c:101-138 | An accepted element not above the maximum gives the ordered insertion truncated to the old length, plus the old last element when there was room |
| `BPQueue.EnqueueKeepsSmallest` | SPBPriorityQueue.c:78-140 | Outside the equal-value tie case, an enqueue onto n elements keeps the min(n+1, cap) smallest, in (value, index) order, of the old elements and the new one |
| `BPQueue.EnqueueTieRepeatsMax` | SPBPriorityQueue.c:134-136 | When the new element equals the maximum value with a larger index, the old last element is repeated (or nothing changes when full) and the new element is absent |
| `BPQueue.EnqueueTieExample` | SPBPriorityQueue.c:134-136 | Offering (5, 2.0) to the queue [(1, 2.0)] of capacity 2 gives [(1, 2.0), (1, 2.0)] |
| `BPQueue.EnqueueKeepsSmallestValues` | SPBPriorityQueue.c:78-140 | By value, an enqueue always keeps the smallest min(n, cap) values of everything offered so far, the tie case included |
| `KDArrays.CompareValuesByDim` | SPKDArray.c:236-249 | The comparator returns -1 or 1, and -1 exactly when the first element precedes in (value, index) order |
| `KDArrays.Alloc` | SPKDArray.c:180-218 | Allocation succeeds exactly for non-NULL points, n > 0 and dim > 0, with the first n points copied in order and dim rows |
| `KDArrays.SortAxis` | SPKDArray.c:48-59 | One pass of the outer loop yields the positions sorted by that axis, ties by position |
| `KDArrays.Init` | SPKDArray.c:28-63 | The loops compute InitSpec |
| `KDArrays.InitSpecCorrect` | SPKDArray.c:28-63 | Init fails exactly for NULL points, n <= 0 or dim <= 0; otherwise the array has size n, dimension dim, the points in order, and every row is a sorted permutation of 0..n-1 |
| `KDArrays.SortedRowCorrect` | SPKDArray.c:48-59 | Each sorted row is a permutation of 0..n-1 ordered by its axis, ties by ascending position |
| `KDArrays.SortedPermutationEqual` | SPKDArray.c:236-249 | Two rows that are both sorted permutations for the same axis are equal, so the row does not depend on the sort algorithm |
| `KDArrays.InitExample` | unit_test/sp_kd_array_unit_test.c:79-91 | For the five test points, row 0 is [0,2,4,3,1] and row 1 is [0,4,2,3,1] |
| `KDArrays.MarkHalves` | SPKDArray.c:96-104 | X marks the first nLeft entries of the split row Left and the rest Right |
| `KDArrays.SplitPoints` | SPKDArray.c:106-124 | The two point arrays are the Left and Right points in their original order, and newIndex sends each position to its rank on its side |
| `KDArrays.FillRow` | SPKDArray.c:158-168 | One row of each child is the parent row filtered to that side and renumbered |
| `KDArrays.FillRows` | SPKDArray.c:154-169 | Every child row is the parent row filtered to that side and renumbered |
| `KDArrays.Split` | SPKDArray.c:65-178 | The loops compute SplitSpec |
| `KDArrays.SplitFails` | SPKDArray.c:65-69 | Split fails exactly for a NULL array, coor < 0, coor >= dim, or a size-1 array (whose right half would be empty) |
| `KDArrays.SplitHalvesWF` | SPKDArray.c:72-78 | The halves have sizes ceil(n/2) and n - ceil(n/2), keep the dimension, and are again well-formed KD arrays |
| `KDArrays.SplitPartition` | SPKDArray.c:96-124 | The left child holds the points of the first nLeft entries of row coor in original order, the right child the rest, and together they are the parent's points |
| `KDArrays.SplitSeparates` | SPKDArray.c:96-104 | Every left point's coordinate coor is <= every right point's |
| `KDArrays.ChildRowPermutation` | SPKDArray.c:154-169 | A child row is a permutation of 0..size-1 of that child |
| `KDArrays.ChildRowSorted` | SPKDArray.c:154-169 | A child row stays sorted by its axis over the child's points |
| `KDArrays.ChildWF` | SPKDArray.c:139-169 | A non-empty child is a well-formed KD array |
| `KDArrays.RowLastIsMax` | SPKDArray.c:48-59 | The last entry of a row points at the largest coordinate on that axis |
| `KDArrays.SplitExample` | unit_test/sp_kd_array_unit_test.c:104-116 | Splitting the test array on axis 0 gives left points (1,2),(2,7),(3,4) with row 1 = [0,2,1] and right points (123,70),(9,11) with row 1 = [1,0] |
| `KDArrays.GetPoints` | SPKDArray.c:316-322 | NULL exactly for a NULL array; otherwise size points |
| `KDArrays.GetSortedMatrix` | SPKDArray.c:324-330 | NULL exactly for a NULL array; otherwise dim rows |
| `KDArrays.GetDim` | SPKDArray.c:332-338 | -1 for a NULL array; otherwise the positive number of rows |
| `KDArrays.GetSize` | SPKDArray.c:340-346 | -1 for a NULL array; otherwise the positive number of points |
| `KDTrees.NodeDim` | SPKDTreeNode.c:125-129 | A leaf's dim is -1 |
| `KDTrees.NodeVal` | SPKDTreeNode.c:125-129 | A leaf's val is -1 |
| `KDTrees.GetLeftNode` | SPKDTreeNode.h:135 | The left child of an internal node; NULL for a NULL node or a leaf |
| `KDTrees.GetRightNode` | SPKDTreeNode.h:138 | The right child of an internal node; NULL for a NULL node or a leaf |
| `KDTrees.GetNodePoint` | SPKDTreeNode.h:141 | The point of a leaf; NULL for a NULL node or an internal node |
| `KDTrees.GetMaxSpreadDim` | SPKDTreeNode.c:161-189 | The loop returns -1 for a NULL array and otherwise MaxSpreadDim |
| `KDTrees.MaxSpreadDimCorrect` | SPKDTreeNode.c:161-189 | The result is 1 + the first axis whose spread (last minus first of its sorted row) is strictly largest; it lies in [1, dim] |
| `KDTrees.SplitByDim` | SPKDTreeNode.c:140-159 | Only RANDOM on a valid call draws from rand() |
| `KDTrees.SplitByDimRange` | SPKDTreeNode.c:140-159 | -1 for a NULL array or negative dim; MAX_SPREAD gives [1, dim]; RANDOM and INCREMENTAL give [0, dim) |
| `KDTrees.CreateLeaf` | SPKDTreeNode.c:109-138 | A leaf holding (a copy of) the array's only point; NULL for a NULL array |
| `KDTrees.Create` | SPKDTreeNode.c:39-53 | NULL for a NULL array or dim < 0; a leaf for a size-1 array; NULL when dim is outside [1, arr dim] on a larger array; a built tree's leaves are a permutation of the array's points, split around each node's val |
| `KDTrees.CreateNode` | SPKDTreeNode.c:55-107 | When built, an internal node of dimension dim whose leaves are exactly arr's points and that separates them on axis dim-1; NULL when dim is out of range |
| `KDTrees.CreateNodeHalves` | SPKDTreeNode.c:62-104 | The split on dim-1 gives halves of ceil(n/2) and floor(n/2) points; the node exists exactly when Create of both halves (each on the axis SplitByDim picks for it, left first so its rand draws come first) is non-NULL, and then its children are exactly those trees and its val is the left half's last coordinate on axis dim-1 |
| `KDTrees.CreateNodeChildrenShaped` | SPKDTreeNode.c:62-104 | A built node is balanced: its left subtree holds exactly the ceil(n/2) points of the split's left half and its right subtree the floor(n/2) others, each shaped as Create promises |
| `KDTrees.BuildIncrementalTwoAxesFails` | SPKDTreeNode.c:81-104 | With INCREMENTAL on two-dimensional points and size >= 3, the root's left half of ceil(n/2) >= 2 points gets axis (1+1) % 2 = 0, its Create is NULL, and so is the whole build |
| `KDTrees.Build` | SPKDTreeNode.c:15-37 | NULL for NULL points, size <= 0 or dim <= 0 |
| `KDTrees.SplitAroundMedian` | SPKDTreeNode.c:71-78 | Left points are <= val <= right points on the split axis, and the halves partition the points |
| `KDTrees.NodeShaped` | SPKDTreeNode.c:71-84 | A node over two well-shaped subtrees of the halves is well-shaped over the whole array |
| `KDTrees.BuildShape` | SPKDTreeNode.c:15-107 | A built tree has exactly size leaves, a permutation of the input points, each node separating its sides around val |
| `KDTrees.CreateMaxSpreadBuilds` | SPKDTreeNode.c:39-107 | With MAX_SPREAD and dim in [1, arr dim], Create never fails |
| `KDTrees.BuildMaxSpread` | SPKDTreeNode.c:15-37 | With MAX_SPREAD, Build succeeds exactly for non-NULL points, size > 0 and dim > 0 |
| `KDTrees.BuildIncrementalOneAxisFails` | SPKDTreeNode.c:150-157 | With INCREMENTAL on one-dimensional points and size >= 2, Build asks SplitByDim for the root's axis with dim 0 and gets (0+1) % 1 = 0; the root's split on axis -1 fails, and Build returns NULL |
| `KDTrees.BuildRandomZeroFails` | SPKDTreeNode.c:150-157 | With RANDOM, a first draw divisible by dim makes Build return NULL |
| `KDTrees.Near` | SPKDTreeNode.c:244-255 | The side searched first is the left child exactly when q[dim-1] <= val |
| `KDTrees.Far` | SPKDTreeNode.c:262-270 | The side searched second is the other child |
| `KDTrees.SearchKNN` | SPKDTreeNode.c:217-276 | false and no change when the queue, node or point is NULL; otherwise true with the queue's contents equal to Search |
| `KDTrees.SearchTree` | SPKDTreeNode.c:226-275 | A leaf enqueues (index, squared distance) and a FULL rejection still counts as success; a node searches the near side, then the far side when the queue is not full or (val - q)^2 < max |
| `KDTrees.GetKNN` | SPKDTreeNode.c:204-215 | -1 with no change for NULL arguments; otherwise 1 with the search result added to the queue's current contents |
| `KDTrees.SearchPreservesInvariant` | SPKDTreeNode.c:226-275 | A search keeps the queue sorted, within capacity and admissible |
| `KDTrees.FarPointBound` | SPKDTreeNode.c:262-264 | A point on the far side of the plane is at squared distance >= (val - q[dim-1])^2 |
| `KDTrees.FarSideBound` | SPKDTreeNode.c:262-264 | Every point of a node's far subtree is at squared distance >= (val - q[dim-1])^2 |
| `KDTrees.SideBound` | SPKDTreeNode.c:262-264 | Every leaf beyond a plane is at least the plane's squared gap away |
| `KDTrees.SearchKeepsSmallest` | SPKDTreeNode.c:217-276 | By value, after a search the queue holds the smallest min(n, cap) distances of everything offered, including every leaf of the tree, so pruning loses nothing |
| `KDTrees.DescendKeepsSmallest` | SPKDTreeNode.c:262-270 | The same when the far side is visited |
| `KDTrees.PrunedKeepsSmallest` | SPKDTreeNode.c:262-275 | The same when the far side is pruned: every pruned distance is >= the queue's maximum |
| `KDTrees.SearchHoldsOffers` | SPKDTreeNode.c:226-275 | Every element the queue holds after a search was held before or is the (index, squared distance to the query) of one of the tree's points |
| `KDTrees.SearchFromEmpty` | SPKDTreeNode.h:121-123 | From an empty queue, a search keeps exactly the k smallest distances from the query to the tree's points, and every held element is the index and squared distance of one of those points |
| `Configs.SplitCode` | SPConfig.h:44-48 | The split method constants are 0, 1 and 2 |
| `Configs.Config.SetDefaultValues` | SPConfig.c:547-564 | Every field gets its default: PCA dimension 20, "pca.yml", 100 features, extraction mode on, minimal GUI off, 1 similar image, KNN 1, MAX_SPREAD, logger level 3, "stdout", empty strings and 0 images |
| `Configs.IsNumber` | SPConfig.c:587-594 | True exactly when every character is a decimal digit (so true for "") |
| `Configs.DecimalRoundTrip` | SPConfig.c:161-172 | The digits printed for a natural number are non-empty digits that read back as that number |
| `Configs.IntegerKeyRule` | SPConfig.c:354-534 | A numeric key rejects its value with INVALID_INTEGER exactly when it is not all digits or is out of bounds (> 0; [10, 28] for the PCA dimension; [1, 4] for the logger level) |
| `Configs.WordKeyRule` | SPConfig.c:341-514 | A word key rejects with INVALID_STRING exactly the values outside its words (.jpg/.png/.bmp/.gif, true/false, RANDOM/MAX_SPREAD/INCREMENTAL) |
| `Configs.OtherKeyRule` | SPConfig.c:330-540 | Free-text keys always accept; an unrecognised key is exactly the case that changes nothing |
| `Configs.AssignConstrained` | SPConfig.c:330-540 | An accepted assignment keeps every per-key constraint and changes no other mandatory field |
| `Configs.Config.ApplyPair` | SPConfig.c:330-540 | One key/value line updates the fields as Assign says, or reports its error, or is skipped for an unknown key |
| `Configs.Config.ApplyText` | SPConfig.c:330-344 | A free-text key stores its value |
| `Configs.Config.ApplyWord` | SPConfig.c:341-514 | A word key stores its value or reports INVALID_STRING, as AssignKey says |
| `Configs.Config.ApplyNumber` | SPConfig.c:354-534 | A numeric key stores its value or reports INVALID_INTEGER, as AssignKey says |
| `Configs.Config.GetVariables` | SPConfig.c:284-545 | The line loop leaves the fields, the line number and the error that ReadLines gives |
| `Configs.ReadConstrained` | SPConfig.c:284-545 | Reading never lowers the line number and leaves every field within its constraints |
| `Configs.UnknownKeySkipped` | SPConfig.c:330-540 | A line with an unknown key changes neither the fields nor the line number |
| `Configs.MissingField` | SPConfig.c:566-585 | The error is the first unset field in the order directory, prefix, suffix, number of images, and none when all are set |
| `Configs.Config.Create` | SPConfig.c:29-77 | The message and the fields are those of CreateSpec; NULL exactly when CreateSpec fails |
| `Configs.CreateSound` | SPConfig.c:29-77 | A created configuration has every mandatory field, respects every constraint, and asks for between 1 and numOfImages similar images; the clamp changes only that field |
| `Configs.CreateReportsMissing` | SPConfig.c:566-585 | After a clean read, Create reports the first missing mandatory field, or SUCCESS |
| `Configs.CreateWithDefaults` | unit_tests/sp_config_unit_test.c:117-133 | A file with only the four mandatory keys gives SUCCESS and the defaults for every other field |
| `Configs.LevelOfOneToOne` | SPConfig.c:202-211 | Levels 1 to 4 map to four different logger levels and every logger level is reached; anything outside 1 to 3 maps to DEBUG |
| `Configs.SplitMethodRoundTrip` | SPConfig.c:222-231 | Each split method's code maps back to it; any code outside 0 to 2 maps to MAX_SPREAD |
| `Configs.GettersOfCreated` | SPConfig.c:194-231 | The getters return the stored split method and logger level with SUCCESS |
| `Configs.IndexedPathParts` | SPConfig.c:161-172 | For 0 <= index < numOfImages the image path is directory + prefix + the decimal digits of index + suffix, and index >= numOfImages gives INDEX_OUT_OF_RANGE |
| `Configs.NegativeIndexPath` | SPConfig.c:161-172 | A negative index is not rejected: the path is directory + prefix + '-' + the digits of its magnitude + suffix, with SUCCESS |
| `Configs.ImagePathsDistinct` | SPConfig.c:161-172 | Two different in-range indices give different image paths |
| `Configs.FeatsPathParts` | SPConfig.c:234-245 | INVALID_ARGUMENT exactly for a null buffer or config, INDEX_OUT_OF_RANGE exactly for index >= numOfImages, and otherwise the image path's stem with ".feats" in place of the images suffix, whose digits read back as a non-negative index |
| `Configs.PCAPathParts` | SPConfig.c:174-182 | The PCA path is the directory followed by the PCA file name |
| `Aggregation.FlattenLength` | main_aux.cpp:118-131 | The flattened array has as many entries as the total of the per-image counts |
| `Aggregation.TotalIsSum` | main_aux.cpp:118-131 | For non-negative counts the total is the plain sum |
| `Aggregation.TotalMonotone` | main_aux.cpp:118-131 | For i <= n, the total of the first i per-image counts is at most the total of the first n |
| `Aggregation.FlattenIndex` | main_aux.cpp:118-131 | Feature j of image i lands at position (sum of counts before i) + j, image-major |
| `Aggregation.CreateAllFeaturesArray` | main_aux.cpp:118-131 | The count returned is the total of the per-image counts, the first k slots hold the flattened features, and the rest are untouched |
| `Aggregation.CopyImage` | main_aux.cpp:121-128 | The inner loop appends one image's features after position k |
| `Aggregation.HitsLength` | main_aux.cpp:193-213 | There are (number of query features) x K hits |
| `Aggregation.HitsInRange` | main_aux.cpp:193-213 | Every hit indexes the counter |
| `Aggregation.TallySum` | main_aux.cpp:209-211 | Counting a list of hits adds its length to the counters' total |
| `Aggregation.TallyAppend` | main_aux.cpp:193-213 | Counting two lists of hits one after the other is counting their concatenation |
| `Aggregation.CountQuery` | main_aux.cpp:207-211 | The inner loop increments counter[index] once for each of the first K results |
| `Aggregation.CountHits` | main_aux.cpp:193-213 | The loop over all query features leaves the counters tallied with every hit |
| `Aggregation.CountTotal` | main_aux.cpp:193-213 | The counters grow in total by (number of query features) x K |
| `Aggregation.CompareCountsAgrees` | main_aux.cpp:326-339 | cmpfunc returns -1 or 1, -1 exactly when the first pair ranks first (more votes, then smaller index), and is antisymmetric on different pairs |
| `Aggregation.RankedStrict` | main_aux.cpp:326-339 | The ranking order is a strict order |
| `Aggregation.PairsDistinct` | main_aux.cpp:239-242 | The pairs (i, counter[i]) are pairwise different |
| `Aggregation.RankingCorrect` | main_aux.cpp:239-243 | The ranking is a permutation of the pairs (i, counter[i]) sorted by count descending, ties by index ascending |
| `Aggregation.SortCounts` | main_aux.cpp:243 | The sort leaves the array ordered by cmpfunc |
| `Aggregation.SortFeaturesCount` | main_aux.cpp:227-246 | NULL exactly for a NULL counter or numOfImgs < 1; otherwise the ranking of the first numOfImgs counters |

## Left out

- The logger (`SPLogger.c`): every `spLoggerPrint*` call is a no-op in the model.
- `main.cpp` and the rest of `main_aux.cpp` (`extractFeatures`, `readFeaturesFromFile`, `getQueryPath`, `showResults`, `terminate`, `buildFeaturesKDTree`): file I/O, console input, the GUI and freeing.
- The OpenCV-backed `ImageProc` feature extraction is not part of this model; query features reach `Aggregation.CountHits` as the queue contents of each search.
- Reading the configuration file: `fopen`/`fgets` and the `strtok`/`sscanf` tokenisation are replaced by a sequence of classified lines (`Comment`, `Malformed`, `Pair`). A blank or all-whitespace line takes the error branch at SPConfig.c:289-299 and is `Malformed`. The `printf` error reports (`spConfigPrintError`, `spConfigTerminate`, `spConfigPrintInfo`) are left out.
- `Configs.DecimalValue`: `atoi` overflow on very long digit strings is not modelled; numbers are unbounded.
- The `STR_MAX_LENGTH` truncation of lines, keys and values, and `sprintf` failures in the path functions, are not modelled.
- The simple getters of `SPConfig.c` (`spConfigIsExtractionMode`, `spConfigGetNumOfImages`, and so on) read one field; only the logger-level and split-method getters, which map values, are modelled.
- Memory management: allocation always succeeds, so `SP_BPQUEUE_OUT_OF_MEMORY`, the allocation-failure branches and the `*Destroy` functions are absent. `Queue.Copy` copies the buffer.
- `double` arithmetic and `pow` are modelled with `real` and `x * x`, without rounding.
- `rand()` is an oracle `rand: nat -> nat` read at a counter of draws; each RANDOM choice is `rand(k) % dim`.
- `qsort` is modelled by an insertion sort on values (`Sequences.SortBy`). The comparators never return 0, so the result is the unique sorted permutation, whatever the algorithm.
- The KD array is a value: `Init` and `Split` run the source's loops over scratch arrays, but the result matrices are sequences rather than arrays updated in place.
- The MAX_SPREAD five-point tree of unit_tests/sp_kd_tree_unit_test.c:36-56 is not stated as a lemma. The KD array steps below it (`KDArrays.InitExample`, `KDArrays.SplitExample`) are.
- `BPQueue.EnqueueKeepsSmallest`: excludes the case where the new element ties the maximum value with a larger index. There the source repeats the old last element (`BPQueue.EnqueueTieRepeatsMax`), so only the by-value statement `BPQueue.EnqueueKeepsSmallestValues` holds.
- `Aggregation.CountHits`: requires every search to leave at least K results in the queue. With fewer, the source peeks an empty queue and counts the stale element again.
- NULL queue arguments: a `BPQueue.Queue` method is called on an object, which is non-null by construction, and `Peek`/`PeekLast` return their element. So the INVALID_ARGUMENT returns for a NULL queue or output element (SPBPriorityQueue.c:79-80, 143-144, 159-160, 172-173) and the no-op `spBPQueueClear(NULL)` (SPBPriorityQueue.c:59-60) are not modelled.
- `KDTrees.GetKNN` does not clear the queue, as in the source; the counting loop empties it by dequeuing K results.
