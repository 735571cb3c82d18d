# Verified models of idmlib's core algorithms

idmlib is a C++ library for text and image mining. This project models the algorithms in it whose
correctness is hard to see from reading one function, in Dafny, and proves what they promise:

- **Support vector machines** (`source/util/svm.cpp`). `KernelCache` is the LRU cache of kernel columns as
  a ring of linked entries in arrays, `KernelMatrix` the matrix object on top of it. `SvmProblem` and
  `SvmOptimality` state the quadratic problem and what the stopping rule means. `SvmState`, `SvmSelection`,
  `SmoStep`, `SvmReconstruct` and `SvmSolver` are the solver: selection of the working pair, the clipped
  step, the two gradients kept incrementally, shrinking by permutation, and the report. One solver class
  serves the plain and the nu problem. `ClassGroups`, `PairNumbers`, `OneVsOne` and `ProbabilityCoupling`
  are the multi-class layer: grouping, packing and unpacking of pairwise coefficients, coupled probabilities.
- **word2vec vocabulary** (`source/para2vec/word2vec.cpp`). `HuffmanBuild` and `HuffmanCoder` are the
  two-queue construction and the climb that reads codes and paths; `HuffmanRun` is the same loop as a
  function of the counts; `HuffmanTree`, `KraftOptimality`, `HuffmanOptimality` and `HuffmanDepth` are what
  the result is proved to be. `VocabIndex` is the open-addressing index that is rebuilt when the vocabulary
  is reduced and when it is sorted.
- **Near-duplicate detection** (`duplicate-detection`). `FpBits`, `Fingerprints`, `Combinations` and
  `FpTables` are fingerprints, masked comparison and the generated block masks; `Pigeonhole` says why some
  mask agrees; `GroupTable` and `GroupClosure` are the table of groups; `DupScan`, `DupDetector` and
  `NearestList` are the scans and the detector.
- **Factorization machines** (`libfm`). `FactorizationMachine`, `SparseData`, `LeastSquares`, `AlsLoss`,
  `AlsRun` and `Als`.
- **Multi-probe sequences** (`source/lshkit/apost.cpp`). `ProbeTree` is the tree of vectors that shift, expand
  and extend walk, `ProbeScores` says when probability falls down that tree, and `ProbeSequence` sorts the
  components and emits the vectors from a heap.
- **Argument scanning** (`source/maxent/getopt.c`). `GetoptSpec` reads the original arguments in one pass;
  `GetoptWords` describes a command line by what was typed, without a decoder, and shows that it is read back;
  `Getopt` is the permuting scanner, proved to agree with both. The utility conventions are those of
  section 12.2, Guidelines 9 and 10, of IEEE Std 1003.1.
- **Image sketches** (`source/ise/psm.cpp`). `BitFlips` and `SketchSearch`.

`Sums`, `Vectors` and `Powers` hold shared arithmetic, `Sequences` what several modules say about lists.
Numbers the program keeps in `float` and `double` are exact reals here; a running maximum or minimum that
starts at an infinity is a datatype with a case for "no value yet", and a bound that may be infinite, with
what arithmetic makes of it, is a datatype with cases for the two infinities and for no number.

`dafny verify dfyconfig.toml` checks the whole project.

## Model

| member | source | states |
|---|---|---|
| KernelCache.Cache.constructor | source/util/svm.cpp:92-99 | The byte budget becomes a number of values, less the entry table, and never less than two full columns. |
| KernelCache.Unlinked | source/util/svm.cpp:108-113 | Redirecting the two neighbours of an entry leaves exactly the ring of the other entries, in order. |
| KernelCache.Cache.LruDelete | source/util/svm.cpp:108-113 | The entry leaves the ring, the others keep their order, and the entry still remembers its successor. |
| KernelCache.Cache.LruInsert | source/util/svm.cpp:115-122 | The entry joins at the young end. |
| KernelCache.Cache.DropOldest | source/util/svm.cpp:135-140 | The least recently used entry is emptied and unlinked and its length returns to the free size. |
| KernelCache.Cache.NotExhausted | source/util/svm.cpp:133-141 | While room is still missing, at least two entries are left to evict: the loop ends before the ring is empty. |
| KernelCache.Cache.Evict | source/util/svm.cpp:132-141 | Exactly a prefix of the ring is dropped, no longer than needed, never the newest entry, and enough room results. |
| KernelCache.NewestSurvives | source/util/svm.cpp:132-149 | Making room for a column never drops the column asked for just before. |
| KernelCache.Cache.GetData | source/util/svm.cpp:124-152 | The requested column becomes the newest, keeps its cached prefix, and the returned position is where filling starts; all other columns are kept or dropped from the old end, the last one asked for among the kept; free size plus cached lengths stays the capacity. |
| KernelCache.Cache.ExchangeEntries | source/util/svm.cpp:158-163 | Two entries trade columns and the ring still holds exactly the non-empty entries. |
| KernelCache.Cache.SwapPositions | source/util/svm.cpp:165-182 | Walking the ring while entries leave it fixes every cached column once: two positions trade places, and a prefix that covers only the lower one is given up. |
| KernelCache.Cache.SwapIndex | source/util/svm.cpp:154-183 | Columns and positions of both indices are exchanged throughout the cache. |
| KernelMatrix.SwapKeepsCoherence | source/util/svm.cpp:1281-1287 | Exchanging two indices in the cache and in the labels keeps every cached prefix equal to the new matrix row. |
| KernelMatrix.SvcQ.GetQ | source/util/svm.cpp:1264-1274 | The returned prefix is the row of y_i y_j K(x_i, x_j) in the current order, and the row returned by the previous call is still in place. |
| KernelMatrix.SvcQ.SwapIndex | source/util/svm.cpp:1281-1287 | Points, labels, diagonal and cache are exchanged together and stay coherent. |
| SvmProblem.ObjectiveStepped | source/util/svm.cpp:599-684 | Along a pair the dual objective is a parabola given by the pair's violation and curvature. |
| SvmProblem.StepDescends | source/util/svm.cpp:599-684 | Every step up to the Newton length strictly lowers the objective, by at least half violation times length, also when a curvature that is not positive is replaced by TAU. |
| SvmProblem.BalanceStepped | source/util/svm.cpp:599-684 | A step along a pair keeps the label-weighted sum, and the sum of each class when the pair is of one class. |
| SmoStep.ClipPair | source/util/svm.cpp:599-684 | The four clipping cases, with different or equal labels, all amount to one step of the same length along the pair that stays in the box and is as long as the box allows. |
| SvmOptimality.OptimalHasMultipliers | source/util/svm.cpp:771-868 | A point where no admissible pair violates optimality by eps has a multiplier for each class, one for both in the plain problem. |
| SvmOptimality.MultipliersBoundGap | source/util/svm.cpp:571-585 | With such multipliers a positive semidefinite problem is within eps/2 times the 1-norm distance of any feasible competitor with the same sums. |
| SvmOptimality.StoppingRuleBoundsGap | source/util/svm.cpp:571-585 | What stopping means: the eps-optimal point is that close to every competitor. |
| SvmState.SwapRelabels | source/util/svm.cpp:448-458 | Seen from the variables, swapping two positions changes nothing. |
| SvmState.SwapKeepsInv | source/util/svm.cpp:448-458 | All bookkeeping survives the swap of two active positions. |
| SvmState.ShrinkKeepsInv | source/util/svm.cpp:935-948 | Deactivating variables at a bound keeps the bookkeeping. |
| SvmState.MovedKeepsInv | source/util/svm.cpp:686-725 | After a step, the active gradient is p + Qα, G_bar is the sum over the variables at their upper bound, and no inactive variable is free. |
| SvmSelection.StopTest | source/util/svm.cpp:862-868 | The sum compared with eps is below it exactly when the active set is optimal; otherwise the chosen pair is admissible, violating, and best by the second-order estimate. |
| SvmSelection.ShrunkIsHarmless | source/util/svm.cpp:870-888 | The shrinking test holds exactly for a variable at a bound that has a negative violation with every active variable it could be paired with. |
| SvmSelection.LimitsNear | source/util/svm.cpp:926-933 | The comparison with 10·eps says that no admissible active pair violates optimality by more, in the plain problem and class by class. |
| SvmSelection.FullOptimal | source/util/svm.cpp:573-581 | With everything active, optimality of the permuted arrays is optimality of the caller's problem. |
| SvmSelection.SwapSorts | source/util/svm.cpp:935-948 | One swap of the partition loop moves it on: kept variables before, shrunk ones behind. |
| SvmSelection.OffsetIsFinite | source/util/svm.cpp:951-987 | The offset of a class is a number exactly when something of the class can move up and something can move down; with one side open it is the infinity of the other side, and with an empty class no number. |
| SvmSelection.OffsetIsMean | source/util/svm.cpp:951-987 | The offset is the mean height of the free variables, or with none of them the middle between the least height that bounds it from above and the greatest that bounds it from below. |
| SvmSelection.OffsetKind | source/util/svm.cpp:951-987 | With everything active, which of the four cases occurs is decided by the problem and α alone, not by the order of the arrays. |
| SvmSelection.OffsetSeparates | source/util/svm.cpp:951-987 | At an eps-optimal point the offset separates what can move up from what can move down, up to eps. |
| SvmReconstruct.FilledAll | source/util/svm.cpp:460-500 | The variables at their upper bound together with the free active ones are all of α, because no inactive variable is free. |
| SvmReconstruct.Reconstructed | source/util/svm.cpp:460-500 | A tail that accounts for all of α completes the gradient over every variable. |
| SvmSolver.Solver.SwapIndex | source/util/svm.cpp:448-458 | The matrix and all arrays are permuted alike. |
| SvmSolver.Solver.InitGradient | source/util/svm.cpp:532-554 | Summing rows of the variables away from their lower bound gives the full gradient and G_bar. |
| SvmSolver.Solver.FindUp | source/util/svm.cpp:779-805 | The largest -y G over what can move up, and the last position that has it: every later candidate is smaller. |
| SvmSolver.Solver.ScanLow | source/util/svm.cpp:810-860 | The largest y G over what can move down, and the last violating position with the least second-order estimate. |
| SvmSolver.Solver.SelectPlain | source/util/svm.cpp:771-868 | Reports optimal exactly when the active set is; otherwise i is the last most violating variable that can move up, and j the last of the best violating ones that can move down. |
| SvmSolver.Solver.SelectNu | source/util/svm.cpp:1014-1124 | The same with a partner of its own for each class, ties going to the later position in every search. |
| SvmSolver.Solver.NewtonStep | source/util/svm.cpp:599-604 | delta is the Newton length of the pair with the sign the labels require. |
| SvmSolver.FullStepMinimises | source/util/svm.cpp:599-604 | Where the objective curves upward along the pair that length leads to its lowest point; elsewhere it is 10^12 times the violation. |
| SvmSolver.GainIsDecrease | source/util/svm.cpp:810-860 | The estimate by which j is selected is twice what the full step gains, where the curvature is positive. |
| SvmSolver.Solver.UpdateGradient | source/util/svm.cpp:686-694 | The active gradient follows both changes of α. |
| SvmSolver.Solver.UpdateBounds | source/util/svm.cpp:696-725 | Status and G_bar follow variables into and out of their upper bound. |
| SvmSolver.Solver.TakeStep | source/util/svm.cpp:586-725 | A whole step: the longest the box allows up to the Newton length, strictly descending, keeping all conserved sums, with bookkeeping exact afterwards. |
| SvmSolver.Solver.ReconstructGradient | source/util/svm.cpp:460-500 | Both ways of rebuilding the tail, by rows or by columns, give the full gradient and leave the active part alone. |
| SvmSolver.Solver.DoShrinking | source/util/svm.cpp:890-949 | A variable is deactivated exactly when it is at a bound and every pair it could form with a variable active on entry has a negative violation; everything is made active once, as soon as no admissible pair violates optimality by more than 10·eps. |
| SvmSolver.Solver.Iterate | source/util/svm.cpp:561-726 | A turn either proves the whole problem optimal or makes one step. The active set is shrunk exactly when the counter runs out, everything is looked at again exactly when the active set is optimal, and the counter then asks for shrinking in the next turn. |
| SvmSolver.Solver.CalculateRho | source/util/svm.cpp:951-987 | rho is the mean height of the free variables or the middle of what the bounds leave, for each class in the nu problem; finite, infinite or no number as the two sides are open or not, and where finite it separates the classes up to eps. |
| SvmSolver.Solver.CalculateObjective | source/util/svm.cpp:732-740 | Half the sum of α(G + p) in the permuted order is the dual objective. |
| SvmSolver.Solver.PutBack | source/util/svm.cpp:742-746 | Writing through the active set restores the caller's order. |
| SvmSolver.Solver.Optimize | source/util/svm.cpp:556-726 | The points visited form a run of strictly descending steps; the loop ends only where all variables are optimal. |
| SvmSolver.Solve | source/util/svm.cpp:502-768 | From a feasible start, the α written back is feasible, has the start's sums, is eps-optimal for the true gradient over all variables, is reached by descending steps, and is reported faithfully. |
| SvmSolver.SolvedInBox | source/util/svm.cpp:502-768 | Every variable written back lies between 0 and the cost of its own class. |
| SvmSolver.SolvedIsNearOptimal | source/util/svm.cpp:502-768 | For a positive semidefinite matrix that α is within eps/2 times the distance of every feasible competitor with the start's sums. |
| ClassGroups.FindClasses | source/util/svm.cpp:2008-2033 | Labels are listed once each, in order of first appearance, with their counts. |
| ClassGroups.GroupClasses | source/util/svm.cpp:1998-2053 | perm lists every point once, class by class, in the original order inside each class. |
| OneVsOne.RowsAndClasses | source/util/svm.cpp:2255-2272 | A row of the coefficient table and a class determine one pair, and the other way round. |
| OneVsOne.MarkNonzero | source/util/svm.cpp:2179-2184 | A point is kept exactly when some pair gives it a coefficient that is not zero. |
| OneVsOne.CountKept | source/util/svm.cpp:2218-2232 | The counts per class locate every class among the kept points. |
| OneVsOne.ListKept | source/util/svm.cpp:2236-2240 | The kept points in order. |
| OneVsOne.SlotElsewhere | source/util/svm.cpp:2264-2272 | Classes write to disjoint ranges of a row. |
| OneVsOne.FillTable | source/util/svm.cpp:2242-2274 | Every slot of every kept point holds the coefficient of exactly its pair. |
| OneVsOne.Pack | source/util/svm.cpp:2139-2274 | The packed model: kept points, counts, offsets and filled table. |
| OneVsOne.PackedSumIsSum | source/util/svm.cpp:2490-2493 | Summing over the kept points of a class equals summing over the whole class. |
| OneVsOne.PairRoundTrip | source/util/svm.cpp:2482-2495 | What is read back for a pair is that pair's own decision value, although dropped points are missing and coefficients are spread over two rows. |
| OneVsOne.DecisionValues | source/util/svm.cpp:2477-2502 | All pairs' decision values in the order of their numbers. |
| OneVsOne.CountVotes | source/util/svm.cpp:2473-2507 | Every pair gives one vote; the first class with most votes wins. |
| OneVsOne.VotesAreWins | source/util/svm.cpp:2473-2507 | The votes of a class are the number of classes it wins against: those after it with a positive value, those before it with one that is not. |
| OneVsOne.PredictValues | source/util/svm.cpp:2440-2510 | From a packed model: the decision value of every pair and the winner. |
| ProbabilityCoupling.BuildMatrix | source/util/svm.cpp:1821-1836 | Q is the symmetric matrix of the coupling problem, built while half of it is not there yet. |
| ProbabilityCoupling.RowsAreShares | source/util/svm.cpp:1821-1847 | The quadratic form is a sum of squares over pairs. |
| ProbabilityCoupling.FormNonNegative | source/util/svm.cpp:1840-1847 | pᵀQp is never negative. |
| ProbabilityCoupling.StepPositive | source/util/svm.cpp:1859-1865 | For a probability vector, the raised coordinate is not negative and 1 + diff is positive. |
| ProbabilityCoupling.StepKeeps | source/util/svm.cpp:1857-1867 | The step yields a probability vector, and the incremental Qp and pQp equal a recomputation. |
| ProbabilityCoupling.StepSolves | source/util/svm.cpp:1857-1867 | A step raises coordinate t until (Qp)_t meets the value of the form before the step, and then divides everything by 1 + diff. |
| ProbabilityCoupling.StepDescends | source/util/svm.cpp:1859-1861 | No step raises the form. |
| ProbabilityCoupling.Step | source/util/svm.cpp:1857-1867 | One update with its incremental products, against the step computed from scratch. |
| ProbabilityCoupling.LargestDeviation | source/util/svm.cpp:1848-1854 | The largest deviation from the optimality condition, attained. |
| ProbabilityCoupling.MulticlassProbability | source/util/svm.cpp:1813-1874 | Probabilities that sum to 1, no worse than uniform, reached by exact sweeps, each from a vector that had not converged; converged unless the iterations ran out. |
| KraftOptimality.ExchangeDepths | source/para2vec/word2vec.cpp:238-282 | Giving the deeper place to the lighter of two items never costs more. |
| KraftOptimality.SiblingsAtBottom | source/para2vec/word2vec.cpp:238-282 | Some feasible assignment that costs no more has the two lightest items side by side at the bottom. |
| KraftOptimality.MergeKeepsOptimality | source/para2vec/word2vec.cpp:277-280 | Splitting the merged node of two lightest items keeps optimality. |
| HuffmanTree.PathFollowsCode | source/para2vec/word2vec.cpp:288-302 | Each code bit leads from one node of the path to the next. |
| HuffmanTree.DecodesToNode | source/para2vec/word2vec.cpp:284-303 | Following a word's code from the root ends at the word. |
| HuffmanTree.PrefixFree | source/para2vec/word2vec.cpp:284-303 | No word's code is a prefix of another's. |
| HuffmanTree.KraftEquality | source/para2vec/word2vec.cpp:238-282 | At every stage the depths of the waiting nodes meet Kraft with equality. |
| HuffmanTree.CodesMeetKraft | source/para2vec/word2vec.cpp:284-303 | So do the code lengths of the words. |
| HuffmanTree.OptimalAt | source/para2vec/word2vec.cpp:238-282 | At every stage of greedy merging the depths are optimal for the waiting nodes. |
| HuffmanOptimality.GreedyBeatsLengths | source/para2vec/word2vec.cpp:226-303 | The lengths cost no more than any lengths that satisfy the Kraft inequality. |
| HuffmanOptimality.GreedyBeatsShapes | source/para2vec/word2vec.cpp:226-303 | Nor than the leaf depths of any binary tree over the same words. |
| HuffmanOptimality.LengthsAreMinimal | source/para2vec/word2vec.cpp:226-303 | So a greedy tree over counts that are not negative gives code lengths of least total cost. |
| HuffmanDepth.SiblingIsHeavier | source/para2vec/word2vec.cpp:238-282 | A node's sibling is at least as heavy as the node's children. |
| HuffmanDepth.AncestorIsHeavy | source/para2vec/word2vec.cpp:238-302 | The ancestor i levels above a word weighs at least the Fibonacci number F(i + 2). |
| HuffmanDepth.RootWeight | source/para2vec/word2vec.cpp:277-277 | Merging conserves the total count. |
| HuffmanDepth.LongCodesNeedWeight | source/para2vec/word2vec.cpp:238-302 | A code of length d needs a total count of at least F(d + 2). |
| HuffmanDepth.CodesFit | source/para2vec/word2vec.cpp:226-303 | In a greedy tree over positive counts with a total below F(42) every code has at most 39 bits, which fit the arrays of 40. |
| HuffmanBuild.PicksWait | source/para2vec/word2vec.cpp:240-276 | The sentinel keeps both picks among the nodes that still wait, for any counts below it. |
| HuffmanBuild.PicksAreLightest | source/para2vec/word2vec.cpp:240-276 | With sorted counts the two picks are two lightest waiting nodes. |
| HuffmanBuild.MergeKeepsLinks | source/para2vec/word2vec.cpp:277-280 | Parents, bits and counts stay those of a forest whose parents have larger numbers. |
| HuffmanBuild.MergeKeepsOrder | source/para2vec/word2vec.cpp:277-280 | New nodes arrive in ascending weight, so both queues stay sorted. |
| HuffmanBuild.FinishedIsTree | source/para2vec/word2vec.cpp:238-282 | After the last merge the arrays hold one binary tree over all words. |
| HuffmanBuild.FinishedIsGreedy | source/para2vec/word2vec.cpp:238-282 | All its merges were greedy. |
| HuffmanRun.TreeFor | source/para2vec/word2vec.cpp:230-282 | Any two or more counts below the sentinel, sorted or not, lead the loop to a valid tree over exactly these counts. |
| HuffmanRun.SortedIsHuffman | source/para2vec/word2vec.cpp:238-282 | For falling counts, zeros included, every merge of the loop took two lightest nodes. |
| HuffmanRun.BitsByPick | source/para2vec/word2vec.cpp:240-280 | Bit 1 marks the second pick of a merge, ties included, whatever the counts. |
| HuffmanRun.HeavierGetsOne | source/para2vec/word2vec.cpp:240-280 | Over falling counts the heavier of two siblings carries bit 1. |
| HuffmanRun.SortedIsMinimal | source/para2vec/word2vec.cpp:226-303 | For falling counts below the sentinel no binary tree over the words costs less than the lengths the loop arrives at. |
| HuffmanRun.SingleWord | source/para2vec/word2vec.cpp:286-295 | A single word gets one bit, which is minimal exactly when the word never occurs. |
| HuffmanRun.SmallTotalsFit | source/para2vec/word2vec.cpp:226-303 | Positive falling counts with a total below F(42) give codes that fit the arrays. |
| HuffmanRun.NodesWithinTotal | source/para2vec/word2vec.cpp:277-277 | For counts that are not negative no node of the tree outweighs the total, so the sums wrap only if the total does. |
| HuffmanRun.FibCountsAreDeep | source/para2vec/word2vec.cpp:226-303 | Fibonacci counts of n words total F(n + 1) and give the last word a code of n - 1 bits: the bound on code lengths is attained at every length. |
| HuffmanRun.LimitIsSharp | source/para2vec/word2vec.cpp:226-303 | At F(42) itself there are positive falling counts whose codes no longer fit the arrays. |
| HuffmanCoder.TakeLightest | source/para2vec/word2vec.cpp:241-258 | One pick from the fronts of the two queues; ties go to the merged nodes. |
| HuffmanCoder.MergeNext | source/para2vec/word2vec.cpp:238-282 | One turn of the loop leaves in the arrays the state the run has after one more merge. |
| HuffmanCoder.BuildTree | source/para2vec/word2vec.cpp:230-282 | For any counts below the sentinel the arrays end with the parents and bits of the tree of these counts; with fewer than two words they stay zero. |
| HuffmanCoder.ClimbReadsPath | source/para2vec/word2vec.cpp:286-295 | Climbing parents reads the path and the code backwards. |
| HuffmanCoder.Climb | source/para2vec/word2vec.cpp:286-295 | The climb collects exactly the nodes and bits up to the root, and stays in its arrays when they number at most 40. |
| HuffmanCoder.StoreCode | source/para2vec/word2vec.cpp:296-302 | The reversal writes code and shifted path into the word's own row and touches no other. |
| HuffmanCoder.AssignCodes | source/para2vec/word2vec.cpp:283-303 | Every word's row holds its climb reversed. |
| HuffmanCoder.WrittenIsStored | source/para2vec/word2vec.cpp:286-302 | A climb reversed is the word's code and its path from the root in the tree. |
| HuffmanCoder.StoredRowDecodes | source/para2vec/word2vec.cpp:297-302 | Every point before the last is an inner node in 0..n-2, code bits lead from point to point, and the last point is the word itself. |
| HuffmanCoder.CreateBinaryTree | source/para2vec/word2vec.cpp:226-307 | For any counts below the sentinel whose codes fit the arrays: with two words or more, in any order, every row holds the code and path of the word in the tree of the counts; for falling counts the summed count times length is least among all binary trees over the words; a single word gets one bit. |
| VocabIndex.EmptySlot | source/para2vec/word2vec.cpp:151-151 | With fewer words than slots there is an empty slot, so probing ends. |
| VocabIndex.AbsentIfEmpty | source/para2vec/word2vec.cpp:117-122 | A word whose probe reaches an empty slot is not in the list. |
| VocabIndex.StoreKeepsIndex | source/para2vec/word2vec.cpp:150-152 | Storing a new word at the end of its probe keeps every word reachable. |
| VocabIndex.KeptPlaces | source/para2vec/word2vec.cpp:205-213 | What is kept stands at increasing places of the list before, and everything at another place is too rare. |
| VocabIndex.Vocabulary.SearchVocab | source/para2vec/word2vec.cpp:114-124 | Returns the index of the word, or -1 exactly when it is absent. |
| VocabIndex.Vocabulary.AddWordToVocab | source/para2vec/word2vec.cpp:136-154 | The word is appended with count 0 and indexed. |
| VocabIndex.Vocabulary.ReduceVocab | source/para2vec/word2vec.cpp:200-222 | Exactly the words above the threshold stay, in their order, freshly indexed; the threshold rises by one. |
| VocabIndex.ReducedEnough | source/para2vec/word2vec.cpp:377-377 | Counting a word never leaves the table fuller than seven tenths: a reduction always drops at least the word just added. |
| VocabIndex.Vocabulary.CountWord | source/para2vec/word2vec.cpp:370-377 | One word of the file does to the indexed vocabulary what it does to a plain list. |
| VocabIndex.Vocabulary.CountWords | source/para2vec/word2vec.cpp:351-378 | The whole counting loop equals the plain-list computation and the index stays valid. |
| VocabIndex.CountsAreOccurrences | source/para2vec/word2vec.cpp:351-378 | As long as no reduction was needed every word of the file is listed with the number of its occurrences. |
| VocabIndex.CompareIsExact | source/para2vec/word2vec.cpp:157-160 | The comparator returns the difference of the counts exactly when that difference fits an int. |
| VocabIndex.ShortInputsCompare | source/para2vec/word2vec.cpp:157-160 | It does for every file of fewer than 2^31 words. |
| VocabIndex.FrequentStretch | source/para2vec/word2vec.cpp:168-189 | In the sorted list the frequent entries are one stretch, which holds each of them as often as the list before and nothing else. |
| VocabIndex.Vocabulary.SortVocab | source/para2vec/word2vec.cpp:163-191 | All entries but the first are sorted by falling count; exactly the frequent ones are indexed and summed; the list is cut to as many entries. The index fits that list if and only if the first entry is frequent enough or nothing is left. |
| VocabIndex.RareFirstStays | source/para2vec/word2vec.cpp:173-180 | An input on which it does not: a rare first entry stays, unindexed, in place of a frequent one. |
| VocabIndex.SortedCountsDescend | source/para2vec/word2vec.cpp:168-169 | The counts handed to the Huffman tree fall exactly when the first entry, which is not sorted in, is no rarer than the second. |
| VocabIndex.Vocabulary.LearnVocab | source/para2vec/word2vec.cpp:346-379 | A file's words are counted as a plain list would count them, then sorted, cut and indexed; the index fits the list exactly when the first entry is frequent enough or nothing is left. |
| Fingerprints.MaskedEqual | include/idmlib/duplicate-detection/fp_table.h:44-50 | Masked words are equal exactly when the fingerprints agree on every masked bit. |
| Fingerprints.TableLess | include/idmlib/duplicate-detection/fp_table.h:32-42 | The comparator is the order of the masked words from the highest word down. |
| Fingerprints.BeforeTotal | include/idmlib/duplicate-detection/fp_table.h:32-42 | That order is total and asymmetric, with equal keys incomparable. |
| Fingerprints.BeforeByHighest | include/idmlib/duplicate-detection/fp_table.h:32-42 | The highest word in which two fingerprints differ decides. |
| Fingerprints.HammingCountsBits | include/idmlib/duplicate-detection/fp_item.h:29-37 | The word-wise distance is the number of differing bits. |
| Combinations.NothingBetween | source/duplicate-detection/fp_tables.cc:64-80 | No increasing vector lies between a vector and the one the routine makes of it. |
| Combinations.FullIsLast | source/duplicate-detection/fp_tables.cc:66-72 | When the routine reports no more, the vector was the last. |
| Combinations.Permutate | source/duplicate-detection/fp_tables.cc:64-80 | Raises the last position that has room and resets what follows; otherwise reports the end and changes nothing. |
| Combinations.VisitNext | source/duplicate-detection/fp_tables.cc:49-61 | Each step visits the lexicographically next subset, none twice. |
| Combinations.VisitedAll | source/duplicate-detection/fp_tables.cc:49-61 | At the end every subset of that size has been visited exactly once. |
| FpTables.BlockEnds | source/duplicate-detection/fp_tables.cc:7-12 | The blocks partition the bits. |
| FpTables.BlocksFall | source/duplicate-detection/fp_tables.cc:7-12 | Blocks differ by at most one bit, and the longer ones come first. |
| FpTables.BlockMask | source/duplicate-detection/fp_tables.cc:15-38 | The word masks of a block select exactly its bits, across word borders. |
| FpTables.TableMask | source/duplicate-detection/fp_tables.cc:51-59 | A table's mask is exactly the union of the chosen blocks. |
| FpTables.GenTables | source/duplicate-detection/fp_tables.cc:5-62 | One table for every choice of partition - k blocks, each choice once. |
| Pigeonhole.FewDirtyBlocks | source/duplicate-detection/fp_tables.cc:5-62 | d differing bits spoil at most d blocks. |
| Pigeonhole.SomeTableAgrees | source/duplicate-detection/fp_tables.cc:5-62 | Fingerprints within distance k agree on the mask of some table. |
| GroupTable.Table.AddDoc | include/idmlib/duplicate-detection/group_table.h:81-173 | The two documents' groups are joined and nothing else changes, the lists and recycled ids being those of the source: a new group under a recycled or new id, one more member, or the group with the larger id appended to the other; the result says whether they were apart; map, lists and ids stay consistent; a list gets an entry twice only when one new document is added as both. |
| GroupTable.Table.RemoveDoc | include/idmlib/duplicate-detection/group_table.h:175-193 | Exactly that document leaves its group. |
| GroupTable.Table.InitMap | include/idmlib/duplicate-detection/group_table.h:244-254 | The map rebuilt from lists with no document in common agrees with them. |
| GroupTable.ListsDetermineMap | include/idmlib/duplicate-detection/group_table.h:244-254 | Only one map agrees with the lists. |
| GroupTable.MergeJoins | include/idmlib/duplicate-detection/group_table.h:141-161 | Moving one group's members into the other joins exactly the two groups. |
| GroupTable.MergeOnce | include/idmlib/duplicate-detection/group_table.h:141-161 | Appending one group's list to another's repeats no document unless a list already did. |
| GroupClosure.JoinExtendsClosure | include/idmlib/duplicate-detection/group_table.h:81-173 | If groups are the chains of the pairs so far, joining makes them the chains with the new pair. |
| GroupClosure.GroupsAreClosure | include/idmlib/duplicate-detection/group_table.h:81-202 | After any run of additions two documents share a group exactly when a chain of added pairs links them. |
| GroupClosure.KnownIsClosed | include/idmlib/duplicate-detection/group_table.h:195-202 | Any table is the closure of the pairs it already groups. |
| DupScan.SortItems | include/idmlib/duplicate-detection/dup_detector.h:415-415 | The same items, sorted by the masked bits. |
| DupScan.StretchIsRun | include/idmlib/duplicate-detection/dup_detector.h:514-531 | In sorted data a maximal stretch of equal masked bits holds all items with those bits. |
| DupScan.Params.IsDuplicated | include/idmlib/duplicate-detection/dup_detector.h:600-629 | For a threshold that does not rise with length, and lengths whose sevenfold fits 32 bits: within the threshold of either document and with related attachments. In general as the wrapped length says. |
| DupScan.Params.LongerDecides | include/idmlib/duplicate-detection/dup_detector.h:600-645 | The longer document decides: the pair passes exactly when the distance is within what each document's own length allows. |
| DupScan.Params.LengthWraps | include/idmlib/duplicate-detection/dup_detector.h:600-645 | Without room in 32 bits this fails: documents of 613566757 words are compared as if they had three letters. |
| DupScan.PairWiseCompare | include/idmlib/duplicate-detection/dup_detector.h:553-598 | All passing pairs of a run with a new item are added. |
| DupScan.OldRunFindsNothing | include/idmlib/duplicate-detection/dup_detector.h:519-525 | A run without new items has no pair to add, so skipping it is sound. |
| DupScan.FindDD | include/idmlib/duplicate-detection/dup_detector.h:508-544 | A pass adds exactly the passing pairs with equal masked bits, except in runs skipped as trash. |
| DupDetector.DuplicatesMeet | include/idmlib/duplicate-detection/dup_detector.h:411-417 | Duplicates within the tables' distance share a run of some table. |
| DupDetector.PassingPairsAreGrouped | include/idmlib/duplicate-detection/dup_detector.h:430-629 | Near-duplicate completeness: every pair that passes ends in one group. |
| DupDetector.GroupsAreExact | include/idmlib/duplicate-detection/dup_detector.h:430-629 | With a symmetric attachment relation the groups are exactly the chains of known and passing pairs. |
| DupDetector.GroupsCloseExactly | include/idmlib/duplicate-detection/dup_detector.h:430-629 | For such a relation the groups after an analysis are the closure of the old groups and all passing pairs. |
| DupDetector.NewAreGrouped | include/idmlib/duplicate-detection/dup_detector.h:553-598 | After that a new document shares its group with each of its duplicates, old or new. |
| DupDetector.OldAreUntouched | include/idmlib/duplicate-detection/dup_detector.h:553-598 | No pair of two old documents is found again. |
| DupDetector.Detector.TakeOver | include/idmlib/duplicate-detection/dup_detector.h:362-386 | Waiting fingerprints join as new ones; after a redo request all are new. |
| DupDetector.Detector.ScanTables | include/idmlib/duplicate-detection/dup_detector.h:402-417 | After sorting and scanning by every processed table, the groups are the closure of the old groups and the found pairs. |
| DupDetector.Detector.RunDdAnalysis | include/idmlib/duplicate-detection/dup_detector.h:355-428 | A whole analysis: the found pairs all pass, each in a processed table, and include every pair passing both ways that shares masked bits of such a table outside trash; groups are the closure of old groups and found pairs; where the tables cover the items all such pairs are grouped, and for a symmetric relation the groups are exactly the chains of old groups and passing pairs, so that every new document joins all its duplicates; two old documents are never found again. |
| DupDetector.Detector.GetUniquePosList | include/idmlib/duplicate-detection/dup_detector.h:264-290 | Exactly the positions not grouped with an earlier kept one, in order. |
| NearestList.Offer | include/idmlib/duplicate-detection/dup_detector.h:307-318 | The bounded heap keeps count nearest of the candidates seen; a full heap gives up its first entry exactly for a strictly nearer one. |
| NearestList.GetKNNListBySignature | include/idmlib/duplicate-detection/dup_detector.h:292-322 | The count nearest items within the distance, or all of them, in ascending order. |
| FactorizationMachine.PredictionIsPairSum | include/idmlib/libfm/fm_model.h:29-51 | The linear-time formula equals bias plus linear terms plus the sum over all pairs of features. |
| FactorizationMachine.InteractionShift | include/idmlib/libfm/fm_model.h:39-48 | In one factor value the interaction is linear, with slope x(Σ v x - v x). |
| FactorizationMachine.LinearExactly | include/idmlib/libfm/fm_model.h:39-48 | For any row, with repeated features or not, the interaction is linear in a factor value exactly when the square of the feature's summed value is the sum of the squares, as it is where the feature occurs once. |
| SparseData.ColumnContents | include/idmlib/libfm/sparse_data.h:77-81 | An entry is in column p exactly when it is in its row under feature p. |
| SparseData.SparseMatrix.Transpose | include/idmlib/libfm/sparse_data.h:62-82 | Every column lists its entries in row order; when no row repeats a feature the columns are what the draws need. |
| SparseData.ColumnRows | include/idmlib/libfm/sparse_data.h:77-82 | Without repeated features a column names each row at most once, in increasing order, with that row's coefficient, and every row it leaves out has coefficient 0. |
| LeastSquares.BestFit | include/idmlib/libfm/als.h:128-128 | The closed form minimises the regularised squares along one coordinate. |
| AlsLoss.ResidualsV | include/idmlib/libfm/als.h:162-167 | Changing one factor value moves all residuals along its slopes. |
| AlsLoss.FactorSumsV | include/idmlib/libfm/als.h:162-168 | And the factor sums along its coefficients. |
| AlsLoss.VMinimises | include/idmlib/libfm/als.h:151-160 | The drawn factor value minimises the loss over that value. |
| AlsLoss.BestDescends | include/idmlib/libfm/als.h:103-171 | A minimiser never raises the loss. |
| AlsRun.RunDescends | include/idmlib/libfm/als.h:50-65 | Along any run of such updates the loss never rises. |
| Als.FmModel.Predict | include/idmlib/libfm/fm_model.h:29-51 | The loop over factors with the caller's buffers computes the prediction. |
| Als.Als.InitE | include/idmlib/libfm/als.h:45-48 | Residuals from scratch. |
| Als.Als.InitQ | include/idmlib/libfm/als.h:139-147 | Factor sums from scratch. |
| Als.Als.DrawW0 | include/idmlib/libfm/als.h:103-116 | The bias becomes the exact minimiser; the residuals stay predictions minus targets. |
| Als.Als.DrawW | include/idmlib/libfm/als.h:118-137 | The same for one weight, touching only the rows of its column. |
| Als.Als.DrawV | include/idmlib/libfm/als.h:149-171 | The same for one factor value, and the factor sums stay exact too. |
| Als.Als.Iterate | include/idmlib/libfm/als.h:50-62 | A round sets the bias, every weight, and factor by factor every value to its minimiser, in that order. |
| Als.Als.Learn | include/idmlib/libfm/als.h:40-66 | The whole run is that many rounds, with exact residuals, and the regularised squared error never rises. |
| ProbeTree.ChildHasParent | source/lshkit/apost.cpp:282-313 | shift, expand and extend stay in the box, and the parent of what they make is where they started. |
| ProbeTree.ParentHasChild | source/lshkit/apost.cpp:282-313 | Every other nonzero vector of the box is made by one of them from its parent. |
| ProbeTree.ClosedIsComplete | source/lshkit/apost.cpp:422-458 | A set closed under children that has the first vector has all of them. |
| ProbeTree.LastIsUnique | source/lshkit/apost.cpp:264-280 | The position kept beside a vector is determined by it. |
| ProbeSequence.SortComponents | source/lshkit/apost.cpp:254-262 | The same components, by falling probability of their second choice, those with one choice last. |
| ProbeSequence.InOrderIsBySecond | source/lshkit/apost.cpp:254-262 | The comparator sorts by falling probability of the second choice, and by nothing else. |
| ProbeSequence.SortedIsBox | source/lshkit/apost.cpp:254-262 | Sorting puts components with one choice last, so the first has two choices exactly when any has. |
| ProbeScores.SetPr | source/lshkit/apost.cpp:319-325 | The probability of a vector is the product of its choices. |
| ProbeScores.RatiosExactly | source/lshkit/apost.cpp:282-313 | With choices by falling probability, shift, expand and extend never raise the probability of a vector exactly when the components are sorted by the ratio of the second choice to the first. |
| ProbeSequence.SortedByRatio | source/lshkit/apost.cpp:254-262 | Sorting by the second choice does that where the first two choices of all components have the same total. |
| ProbeSequence.SortedNotByRatio | source/lshkit/apost.cpp:254-262 | An input where it does not. |
| ProbeSequence.WalkStep | source/lshkit/apost.cpp:427-457 | Emitting a waiting vector and pushing its children never repeats one. |
| ProbeSequence.EmptyHeapIsComplete | source/lshkit/apost.cpp:425-425 | If the heap empties, every vector has been emitted. |
| ProbeSequence.BestStep | source/lshkit/apost.cpp:427-429 | Each emitted vector is a most probable one among those whose parents were emitted before. |
| ProbeSequence.BestIsTop | source/lshkit/apost.cpp:422-458 | Where probability never rises down the tree, each emitted vector is a most probable one of all vectors left. |
| ProbeSequence.EmitNext | source/lshkit/apost.cpp:427-457 | One turn of the loop. |
| ProbeSequence.VectorsDistinct | source/lshkit/apost.cpp:422-458 | Different probes have different vectors, none of them zero. |
| ProbeSequence.ExhaustedIsAll | source/lshkit/apost.cpp:422-458 | When all probes have been emitted, so has every nonzero vector of the box. |
| ProbeSequence.GenProbeSequence | source/lshkit/apost.cpp:400-458 | For any components: sorted by falling second choice, then the zero vector and distinct other vectors of the box, best first among the available, and among all that are left if choices and ratios fall, with the mass summed over them; it stops only with enough mass, enough vectors, or every vector emitted, and fails exactly when more is asked for and no component has a second choice. |
| GetoptSpec.ArgumentsInterleave | source/maxent/getopt.c:547-622 | The arguments are an interleaving of options with their arguments and operands. |
| GetoptSpec.InterleavingPermutes | source/maxent/getopt.c:302-380 | An interleaving is a permutation. |
| GetoptWords.ReadLine | source/maxent/getopt.c:547-972 | A line of clusters of plain options and undeclared characters, options with their argument in the same or the next element, missing last arguments and operands is read back word by word: each option with the text it was given, a missing argument as ':' or '?' by the first character of the option string, an undeclared character as '?'. |
| GetoptWords.EveryVector | source/maxent/getopt.c:547-972 | Every argument vector is such a line. |
| Getopt.ShortBottom | source/maxent/getopt.c:340-356 | Swapping a short bottom segment with the far end of the top leaves a smaller exchange. |
| Getopt.ShortTop | source/maxent/getopt.c:357-373 | The same for a short top segment. |
| Getopt.Exchange | source/maxent/getopt.c:302-380 | Two adjacent segments trade places in the array, each in its order. |
| Getopt.ExchangeGathers | source/maxent/getopt.c:563-566 | After the exchange all options found so far stand before all operands skipped. |
| Getopt.EndMarker | source/maxent/getopt.c:581-604 | At "--" the marker goes before the skipped operands and everything after it is an operand. |
| Getopt.EndOfArguments | source/maxent/getopt.c:594-604 | At the end optind stands at the first operand. |
| Getopt.DecodeStep | source/maxent/getopt.c:776-972 | Decoding a character on the permuted vector finds what the original arguments say. |
| Getopt.Scanner.NextElement | source/maxent/getopt.c:547-622 | The step to the next element, or the end of the scan. |
| Getopt.Scanner.DecodeChar | source/maxent/getopt.c:776-972 | A short option with no, a required or an optional argument, or an error character, as the one-pass reader decodes it. |
| Getopt.Scanner.GetOpt | source/maxent/getopt.c:547-622 | Each call reports the next option of the original arguments, or that none is left with the vector finished. |
| Getopt.FinishedPermutes | source/maxent/getopt.c:302-380 | The finished vector is a permutation in which options and operands each keep their order, split at optind. |
| Getopt.FinishedReadsBack | source/maxent/getopt.c:302-1046 | For a finished scan of any line: the events are what was typed, the vector holds the options with their arguments, then the operands, and optind is the first operand. |
| Getopt.ScanAll | source/maxent/getopt.c:994-1046 | A whole run reports exactly the options of the original arguments in order; every vector is a line, and whichever line it is, that line is read back, the vector gathered and optind at its first operand. |
| BitFlips.MaskIsUnique | source/ise/psm.cpp:52-77 | A set of bits has one mask. |
| BitFlips.AddPairs | source/ise/psm.cpp:57-65 | Walking the singles lists every two-bit mask once. |
| BitFlips.AddTriples | source/ise/psm.cpp:66-77 | Walking the pairs lists every three-bit mask once. |
| BitFlips.BitFlipTable | source/ise/psm.cpp:52-77 | For any p of at least 3 the table holds exactly the masks of one, two and three of p bits, each once. |
| SketchSearch.HomesAreClose | source/ise/psm.cpp:112-123 | Bucket numbers differ in no more bits than the sketches. |
| SketchSearch.IdsAreDistinct | source/ise/psm.cpp:156-166 | No bucket is visited twice and all visited buckets exist. |
| SketchSearch.NearIsVisited | source/ise/psm.cpp:133-166 | The bucket of every sketch within the radius is visited. |
| SketchSearch.OrderDoesNotMatter | source/ise/psm.cpp:143-152 | The images reported do not depend on the order in which sketches are met. |
| SketchSearch.BruteForce.Insert | source/ise/psm.cpp:112-126 | Every sketch goes to the bucket of its low bits, and the key to its images. |
| SketchSearch.BruteForce.GenTableIds | source/ise/psm.cpp:156-166 | The query's own bucket and its flips. |
| SketchSearch.BruteForce.Search | source/ise/psm.cpp:133-153 | Reports what a linear scan over all stored sketches reports, query by query, each sketch as often as it is stored. |

## Left out

- Rounding: `float`, `double` and the cast of kernel values to `Qfloat` are exact reals; kernels, the log regression behind the duplicate threshold (capped at 6 when no fixed one is set), the attachment relation and hash functions are functions passed in.
- SvmSolver.Solve: takes a number of turns after which the model gives up, because the source's loop has no bound and convergence is not claimed; every turn that does not finish is shown to descend strictly. Both costs are positive. Optimize does not state where the counter to the first shrinking starts.
- HuffmanCoder.CreateBinaryTree: codes must fit the arrays of 40, because longer ones overrun them (SmallTotalsFit and LimitIsSharp say when that can happen). Sums are unbounded integers, which NodesWithinTotal keeps below the total. Falling counts are asked for only where the result is minimal; SortVocab gives them up to its pinned first entry (SortedCountsDescend).
- VocabIndex.Vocabulary.LearnVocab: words are given as a sequence; reading the file, the limit on word length and memory growth are not modelled. The table has at least four slots. Where counting leaves no word at all the source asks qsort to sort -1 entries; the model sorts nothing.
- VocabIndex.Vocabulary.SortVocab: needs an entry, and counts whose differences fit an int, without which the comparator is no order and qsort promises nothing; qsort is an insertion.
- DupDetector.Detector.RunDdAnalysis: models the variant that keeps fingerprints in memory; the other one reads the same items from storage files. Saving, logging, locking, removal of documents, the count of discovered pairs, and the switches that return early (fingerprints only, or nearest-neighbour mode) are not modelled. std::sort is a stable insertion by the comparator.
- NearestList.GetKNNListBySignature: with a count of zero no item may be within the distance, because the source then reads the front of an empty heap. The standard heap is kept fully ordered.
- GroupTable.Table.InitMap: takes lists with no document in common, which is what Save writes; what inserting a key that is present does is decided by rde_hash, which is not part of this model.
- DupDetector.PassingPairsAreGrouped: speaks of pairs that pass in both orders. A pair that passes in one order only is found or not depending on where the sort puts its two items, as DupScan.FindDD says pass by pass.
- ProbeSequence.GenProbeSequence: the lists of choices of the components are given; Gaussian weights, lookup and clamping are not modelled. The standard heap gives back a largest entry; probes are values. That the sequence is best first among all vectors left is stated only where RatiosFall holds, because it is false otherwise (RatiosExactly, SortedNotByRatio).
- Getopt.Scanner.GetOpt: short options under the permuting order only. Long options, -W followed by a semicolon, the two other orders, messages and optopt are not modelled.
- SketchSearch.BruteForce.Search: the order of results is not modelled; the drum is a map. BruteForce::Init never sizes its bucket vector, so the model starts from 2^p buckets, the number ProbSimMatch::Init makes for its own. Loading and saving, and the sort in Finish that reorders buckets, are not modelled.
- Als.Als.Learn: assumes rows without repeated features, since otherwise the interaction need not be linear in a factor value (LinearExactly) and the columns list a row twice, and positive regularisers, without which a draw may divide by zero. Evaluation, dumping and loading are not modelled.
- ClassGroups.GroupClasses: needs at least one point, as the source does.
- SVR_Q, one-class and regression training, cross-validation and sigmoid fitting in svm.cpp; the numerical training loops of word2vec, maximum entropy and ranking models; FP-growth mining and keyphrase folding.
