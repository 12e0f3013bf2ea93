# Floorplanner, thermal solvers and kernel window

A model of the HotSpot floorplanner and thermal solvers and of the kernel scheduler of
Accel-Sim, with proofs about them. Numbers of type `double` are `real` here, so rounding
is not part of this model; comparisons with a tolerance keep it (`DELTA`, 1e-6).

- **Slicing floorplanner.** Normalized Polish expressions with their index lists and the
  three annealing moves (`PolishExpression`, `PolishMoves`, `PolishReach`, `Npe`), shape
  curves, from the blocks' aspect ratios and their sums (`AspectShape`, `ShapeCurve`), the
  slicing tree read from an expression (`SlicingTree`, `TreeNodes`), placing and compacting
  (`Sizing`, `PlacedBlocks`, `DeadBlocks`, `TreeToFlp`), whole annealing runs (`AnnealingRun`,
  `Annealing`), wrapping with L2 and rim (`RimStrips`, `FlpWrap`), and the equivalent grid floorplan (`TolerantSearch`,
  `FlpGridSpec`, `FlpGrid`).
- **Linear algebra.** LUP decomposition, substitution and inversion (`Lup`, `LupSolve`), the
  block model's conductance matrix (`BlockModel`), compressed columns (`SparseMatrix`).
- **Grid solvers.** The small grid model without package: sweep, heuristic start, nested
  iteration and slope (`GridStencil`, `MobileGrid`, `GridMultigrid`, `NestedIteration`,
  `GridSlope`, `GridSolution`); mapping blocks to cells (`GridOccupancy`, `GridMapSpec`,
  `GridMap`, `TilingMeasures`); and the large grid model with its primary package path,
  swept and assembled for the direct solver (`NodeNetwork`, `GridNodes`, `GridLinks`,
  `GridCount`, `GridAssembly`, `GridMatrix`, `GridPackage`, `GridDirect`, `GridPackSweep`,
  `GridSteady`),
  and that its equation has exactly one solution (`NetworkSolution`, `GridWellPosed`). The
  secondary package path is not modelled anywhere.
- **Kernel window.** One round of the scheduler and what rounds and runs keep
  (`WindowSpec`), and the objects in memory that follow it (`KernelWindow`). The GPU is an
  oracle that accepts or refuses kernels and reports a finished one.

Loops and objects that change state are methods and classes, each proved against a
function or relation on values; what the program promises is proved about those.
`Numbers` holds the tolerant comparison, `Sums` and `FiniteSets` finite sums and a
counting argument.

`dafny verify dfyconfig.toml` checks everything.

## Where the code does not do what it seems to

- `flp_wrap_rim` lays strips over each other or over blocks exactly when a block without
  area gets a strip with area or an edge of a block is nearly, but not quite, on an edge of
  the chip (`RimClosesIff`, `StrayExample`, `ThinExample`). In the second case there can be
  more strips than there is room for. With compaction on, as `floorplan` runs it, no block
  is without area (`CompactedPlacement`).
- `shape_from_aspect` does not reach the greatest aspect ratio when asked for two
  orientations of a block that can be turned and has no ratios on both sides of one
  (`ReachesGreatestIff`, `NarrowExample`).
- `recursive_sizing` speaks of the smaller of the two rectangles, whose area decides whether a
  dead block is dropped; it compares with the lower (or narrower) one, which can be the one of
  larger area (`ComparesWithLesserIff`, `WideExample`).
- `set_bgmap` moves block edges onto nearby grid lines, so the occupied area can differ from
  the block's (`SnappedExample`). `ExactIff` says for every block when its length along an
  axis is kept, `AreaKeptIff` and `AreaKeptIffOtherSide` when its area is, and
  `AllPowersKeptIff` when a layer's power is. For the same reason the occupancies in a cell
  of a tiled chip can add up to less than 1 (`LostSliverExample`), never to more;
  `SharesSumToOneIff` says for every tiling when they add up to 1, and
  `TemperatureIsAverageIff` that the cell's temperature is an average exactly then.
- `xlate_power_blkgrid` drops the power of blocks without area; the total is kept exactly
  when those powers cancel (`PowerKeptIff`, `PowerLostExample`).
- `simulation_loop` reaches the `assert(k)` in `cleanup` with an empty window exactly when
  the commands end with a copy and the window size is 1 or there is no launch
  (`LeftOverIff`, `LeftOverExample`, `SimulationLoop`).
- Launched kernels keep to different streams, whatever is in the window, exactly when the
  GPU never accepts after refusing within a launch pass (`ExclusiveIffFalling`).
- `lupdcmp` stops on a column without a pivot but never looks at the last pivot; that one is
  nonzero exactly when the matrix is nonsingular (`NonsingularIffLastPivot`,
  `SingularUnnoticed`).
- The comment on `b` in `populate_R_model_block` calls it positive definite; it is so
  exactly when every node is linked to the ambient (`PositiveDefiniteIffLinked`,
  `FloatingExample`).
- `coo2csc` sets all column pointers exactly when the last column has an element
  (`ConversionDenotes`, `UnsetPointerExample`); for the grid matrix it has
  (`BuildTransientGridMatrix`).
- `make_random_move` counts a move made at its last try as a failure, and stops
  (`MakeRandomMove`, `LastTryExample`).
- `find_res` takes the x resistance between rows and the y resistance between columns, the
  small grid model the other way round; both are modelled as they are (`LateralExchanged`).

## Model

| member | source | states |
|---|---|---|
| Npe.NPE.FillUnitPos | hotspot_tool/npe.c:16-25 | the list of unit positions is rebuilt: exactly the positions of units, ascending |
| Npe.NPE.FillFlipPos | hotspot_tool/npe.c:27-37 | the same for the positions where a unit and a cut are neighbours |
| Npe.NPE.FillChainPos | hotspot_tool/npe.c:39-61 | the same for the first cuts of chains; the "not normalized" exit is unreachable |
| Npe.NPE.FillBallotCount | hotspot_tool/npe.c:63-72 | every prefix gets its number of cuts |
| Npe.NPE.GetInitial | hotspot_tool/npe.c:75-105 | the first expression is valid with all four index lists filled |
| Npe.NPE.SwapUnits | hotspot_tool/npe.c:157-172 | M1 in place keeps the whole state valid, no list needs patching, and the next unit always exists |
| Npe.NPE.InvertChainAt | hotspot_tool/npe.c:175-198 | M2 in place gives the inverted chain and keeps every index list right; both failure exits are unreachable |
| Npe.NPE.UpdateUnitPos | hotspot_tool/npe.c:201-218 | the binary search finds a position exactly when it is listed and changes only that entry |
| Npe.NPE.SwapCutUnit | hotspot_tool/npe.c:225-264 | M3 happens exactly when it is legal, otherwise nothing changes; the patched and refilled lists are what a full refill gives; no fatal exit |
| Npe.NPE.Duplicate | hotspot_tool/npe.c:324-356 | a deep copy: fresh arrays, same expression, valid |
| Npe.NPE.MakeRandomMove | hotspot_tool/npe.c:267-321 | works on a copy, the receiver is untouched; the copy is one legal move away or no move was made in any try; stops exactly when all tries were used, also if the last one made a move |
| Npe.LastTryExample | hotspot_tool/npe.c:267-321 | for two units the third kind of move is never legal and the first is: the last try can be the only one to succeed |
| PolishMoves.MoveKeeps | hotspot_tool/npe.c:157-264 | a legal move of any kind turns a normalized expression into a normalized one over the same units |
| PolishMoves.SwapLegalIff | hotspot_tool/npe.c:225-264 | the tests of the third move are exact: neighbouring unit and cut may change places if and only if the expression stays normalized |
| PolishMoves.RunKeeps | hotspot_tool/npe.c:157-264 | so does every finite run of moves |
| PolishMoves.MoveUndone | hotspot_tool/npe.c:157-264 | after a legal move the same move at the same position is legal and undoes it |
| PolishMoves.RunUndone | hotspot_tool/npe.c:157-264 | a run is undone by its moves in reverse order |
| PolishReach.ReachInitial | hotspot_tool/npe.c:92-97 | from every normalized expression legal moves lead to the first one |
| PolishReach.ReachableIffNormalized | hotspot_tool/npe.c:75-105 | the expressions reachable from the first one are exactly the normalized ones |
| ShapeCurve.ShapeAdd | hotspot_tool/shape.c:125-198 | the two-pointer sweep fills all entries it counted; each entry is the join of the pair the sweep visits, with that pair recorded |
| ShapeCurve.SweepDominates | hotspot_tool/shape.c:125-198 | for every pair of indices the sweep visits a pair that is at least as far on both sides without the sum of heights growing |
| ShapeCurve.SumIsStaircase | hotspot_tool/shape.c:125-198 | the sum of two staircases is a staircase |
| ShapeCurve.SumDominates | hotspot_tool/shape.c:125-198 | every pair of entries is dominated in both dimensions by an entry of the sum, for either cut |
| ShapeCurve.ShapeDuplicate | hotspot_tool/shape.c:201-230 | fresh arrays with the same curve |
| ShapeCurve.MinAreaPos | hotspot_tool/shape.c:387-397 | no entry of the curve has less area |
| AspectShape.ShapeFromAspect | hotspot_tool/shape.c:16-83 | stops exactly on an odd or too small number of orientations; otherwise the curve is a staircase of the block's area, every entry has a permitted aspect ratio, upright or turned, and it starts at the least and ends at the greatest, except that a turnable block with all ratios on one side of one and two orientations ends where its second range starts; within a range every width is the mean proportional of its neighbours |
| AspectShape.ReachesGreatestIff | hotspot_tool/shape.c:60-83 | the last orientation has the greatest ratio exactly unless the block can be turned, has no ratios on both sides of one, two orientations are asked for and the bounds differ |
| AspectShape.NarrowExample | hotspot_tool/shape.c:60-83 | ratios from 2 to 3 and two orientations: none has ratio 3 |
| AspectShape.EitherWay | hotspot_tool/shape.c:43-49 | the widened range of a block that can be turned holds only ratios permitted upright or turned |
| SlicingTree.RootDominates | hotspot_tool/shape.c:299-332 | every choice of one entry per leaf is dominated by an entry of the root curve |
| SlicingTree.RootAchieves | hotspot_tool/shape.c:299-332 | every entry of the root curve is the bounding box of the choice it records |
| SlicingTree.LeastArea | hotspot_tool/shape.c:387-397 | the entry of least area at the root has the least bounding box over all choices at the leaves |
| SlicingTree.NormalizedIsSkewed | hotspot_tool/shape.c:299-332 | a tree read from an expression without equal adjacent cuts has no right child cut like its parent |
| SlicingTree.SkewedIsNormalized | hotspot_tool/shape.c:299-332 | and conversely, printing such a tree gives no equal adjacent cuts |
| TreeNodes.TreeNodeStack.Push | hotspot_tool/shape.c:269-276 | pushes unless the stack is full, which it reports |
| TreeNodes.TreeNodeStack.Pop | hotspot_tool/shape.c:279-288 | pops the last node, or reports an empty stack |
| TreeNodes.TreeFromNPE | hotspot_tool/shape.c:299-332 | fails exactly when the stack was not empty or some prefix leaves more than 128 subtrees waiting; otherwise the postorder of the tree is the expression and its curves are the sums of their children |
| TreeNodes.EnoughStack | hotspot_tool/shape.c:269-276 | no expression over at most 128 units overflows the stack |
| Sizing.SizedSameBelow | hotspot_tool/shape.c:405-539 | growing a child's root entry in place does not change what placing its subtree at that size gives |
| Sizing.SizedTiles | hotspot_tool/shape.c:405-539 | for every additive measure of rectangles, the units and surviving dead blocks of a subtree add up to the measure of the rectangle it fills |
| Sizing.SizedFrame | hotspot_tool/shape.c:405-539 | a subtree writes only its own units and its own dead slots |
| Sizing.FloorplanTiles | hotspot_tool/shape.c:545-570 | at the root: at most n-1 dead blocks, areas add up, and every point is covered as often as by the root rectangle |
| DeadBlocks.AbsorbedIffSmall | hotspot_tool/shape.c:462-515 | the dead block of a cut lies right on top of or beside the grown child it extends, and is absorbed exactly when compacting is on and its area is at most the ratio times the child's |
| DeadBlocks.ComparesWithLesserIff | hotspot_tool/shape.c:460-480 | the test compares with the child of less area, at every ratio, if and only if that is the lower or narrower one or there is no dead area |
| DeadBlocks.WideExample | hotspot_tool/shape.c:460-480 | a dead block of five times the area of the lesser child is absorbed at ratio 1 |
| DeadBlocks.GrowthIs | hotspot_tool/shape.c:420-460 | across a cut both children grow alike up to the rectangle; along it only the second one grows, and they fill it |
| DeadBlocks.DeadSlotsAre | hotspot_tool/shape.c:405-539 | the slots a subtree takes hold exactly its dead blocks that are not small, parents first, left before right |
| DeadBlocks.SurvivorsAreLarge | hotspot_tool/shape.c:462-515 | every surviving dead block has more than the ratio times the area of a child it extends, or nothing is compacted |
| PlacedBlocks.SizedGood | hotspot_tool/shape.c:405-539 | every placed block lies in the rectangle, and with compaction on each has positive area |
| PlacedBlocks.FloorplanGood | hotspot_tool/shape.c:545-570 | the same for all blocks of the floorplan |
| TreeToFlp.RecursiveSizing | hotspot_tool/shape.c:405-539 | the method that patches the children's curves while it recurses writes the same blocks as the recursion on values |
| TreeToFlp.TreeToFlp | hotspot_tool/shape.c:545-570 | units and surviving dead blocks tile the least bounding box exactly; the n-1 cuts have a dead block each, extending a child, and the blocks after the units are exactly those not small against it |
| Annealing.Evaluate | hotspot_tool/flp.c:843-849 | from an expression to a floorplan: fails only on stack overflow; otherwise tiles the least box under the expression's tree |
| Annealing.PopulateShapes | hotspot_tool/flp_desc.c:113-133 | from a description: stops exactly on a reversed range, a number that is not positive or bad orientations; otherwise the annealer gets staircases that are the orientations of the blocks |
| Annealing.Round | hotspot_tool/flp.c:893-949 | one round adds one trial to the run, one legal move from the expression held and decided by its cost; afterwards the expression held is the last one taken, and the best one the first of least cost among all tried |
| Annealing.Stage | hotspot_tool/flp.c:887-949 | the trials at one temperature end as soon as there are twice the moves, or the moves have gone downhill |
| Annealing.Anneal | hotspot_tool/flp.c:839-978 | the stack never overflows with up to 128 units; every expression tried is one legal move from the one held; it cools until cold, long enough or too few accepted; the result is the least tiling of the first expression of least cost among all tried |
| AnnealingRun.LeastOfMore | hotspot_tool/flp.c:913-934 | asking only downhill trials whether they beat the best keeps the best the first of least cost |
| AnnealingRun.StageSize | hotspot_tool/flp.c:887-949 | at one temperature at most twice the moves are tried and at most the moves go downhill, and one of the two is reached exactly |
| AnnealingRun.RunSize | hotspot_tool/flp.c:881-961 | a whole run tries at most the number of steps times twice the moves |
| FlpWrap.PlaceholderRoom | hotspot_tool/flp.c:247-283 | the units allocated suffice for blocks, dead blocks, L2 arms and 2n+2 strips, and shrink to 2k-1 again before annealing |
| FlpWrap.GetTotalWidth | hotspot_tool/flp.c:1498-1512 | right edge of a rightmost block minus left edge of a leftmost one |
| FlpWrap.ExtentOfTiling | hotspot_tool/flp.c:1498-1528 | for a tiling these extents are the sides of the chip |
| FlpWrap.ShiftedTiles | hotspot_tool/flp.c:340-356 | translating a tiling gives a tiling of the translated chip |
| FlpWrap.L2Area | hotspot_tool/flp.c:630-672 | the arm and bottom sizes are positive and make the wrapped chip larger by exactly the area of the L2, in every branch |
| FlpWrap.L2Proportions | hotspot_tool/flp.c:630-672 | the wrapped chip is a square if its side exceeds both sides of the core, otherwise the longer of arm and bottom is five times the other |
| FlpWrap.L2Tiles | hotspot_tool/flp.c:674-704 | core and three L2 parts tile the larger rectangle |
| FlpWrap.FlpWrapL2 | hotspot_tool/flp.c:619-704 | in place: an exact tiling becomes an exact tiling of the chip with bottom and arms around the shifted core, a square one or in proportion five; its edges are clear of the new chip's exactly if no part of the L2 is thinner, nor the core lower, than the tolerance, and no core block ends nearly on the top edge |
| RimStrips.RimClosesIff | hotspot_tool/flp.c:712-795 | for every tiling: core and rim strips tile the rimmed chip if and only if no block with area has an edge nearly, but not quite, on the chip's and no zero-area block gets a strip with area |
| RimStrips.CornersClockwise | hotspot_tool/flp.c:712-795 | at a corner the strip that reaches it clockwise takes the corner |
| RimStrips.StrayExample | hotspot_tool/flp.c:712-795 | such a block exists: a tiling with a zero-width block on the edge |
| RimStrips.ThinExample | hotspot_tool/flp.c:712-795 | a tiling with a block thinner than the tolerance gets more strips than there is room for |
| RimStrips.StripBound | hotspot_tool/flp.c:275-279 | blocks with area and edges clear of the chip's get at most 2n+2 strips |
| FlpWrap.FlpWrapRim | hotspot_tool/flp.c:712-795 | in place: adds exactly the strips; tiles if and only if edges are clear of the chip's and no strip is stray; then at most 2n+2 strips |
| FlpWrap.CompactedPlacement | hotspot_tool/flp.c:849-860 | with compaction on every block has area, so no strip is stray, whatever the edges |
| FlpWrap.RestoreDeadBlocks | hotspot_tool/flp.c:316-337 | clears the dead blocks, and n_units becomes what it was before L2, rim and compaction |
| FlpWrap.WrapStep | hotspot_tool/flp.c:849-866 | L2 and rim on a compacted tiling: tiles the enlarged chip, fits the allocated units, and n_units is restored; only the rim asks for clear edges |
| TolerantSearch.SearchFinds | hotspot_tool/util.c:455-473 | on an ascending list the tolerant search finds something exactly when an element is within the tolerance, else the position that separates |
| TolerantSearch.InsertedSpaced | hotspot_tool/util.c:479-493 | insertion keeps the gaps, keeps the elements and makes the new one present |
| TolerantSearch.BsearchInsertDouble | hotspot_tool/util.c:479-493 | in place: shifts and inserts exactly when the search finds nothing |
| FlpGrid.CollectLines | hotspot_tool/flp.c:476-490 | for edges equal or at least the tolerance apart, the line arrays hold exactly the edges of the blocks |
| FlpGrid.BuffersSuffice | hotspot_tool/flp.c:476-490 | the line buffers hold the lines of any blocks up to half their size, and of tilings by blocks with area up to one less than their size |
| FlpGridSpec.CellsTile | hotspot_tool/flp.c:524-571 | the cells of a block tile it |
| FlpGridSpec.CellCount | hotspot_tool/flp.c:524-571 | the cells number (xsize-1)(ysize-1) |
| FlpGrid.CellsDistinct | hotspot_tool/flp.c:545-563 | no two cells share a corner, so the search for an existing cell never finds one |
| FlpGrid.FlpCreateGrid | hotspot_tool/flp.c:470-588 | the grid holds every cell of every block once, tiles the chip, and the map gives each block its cells |
| FlpGrid.PowerKept | hotspot_tool/flp.c:601-611 | the power carried to the cells adds up to that of the blocks with area |
| FlpGrid.PowerKeptIff | hotspot_tool/flp.c:601-611 | total power is kept if and only if the powers of the zero-area blocks add up to zero |
| FlpGrid.PowerLostExample | hotspot_tool/flp.c:601-611 | a tiling with a zero-width block: its power is lost |
| FlpGrid.XlatePowerBlkgrid | hotspot_tool/flp.c:601-611 | in place: every cell gets its share by area |
| Lup.Lupdcmp | hotspot_tool/RCutil.c:75-103 | either the permuted original is the product of the factors, all multipliers at most 1 in size, or the first column without a pivot is named; p is a permutation |
| Lup.EliminateKeeps | hotspot_tool/RCutil.c:97-101 | one elimination step carries the factorization on by one column |
| Lup.SwapKeeps | hotspot_tool/RCutil.c:92-95 | exchanging rows keeps the partial factorization of the permuted matrix |
| LupSolve.NonsingularIffLastPivot | hotspot_tool/RCutil.c:79-103 | the last pivot, which is not examined, is nonzero exactly when the matrix is nonsingular |
| LupSolve.SingularUnnoticed | hotspot_tool/RCutil.c:75-103 | on a 1 by 1 zero matrix, which is singular, the decomposition returns normally |
| LupSolve.Lusolve | hotspot_tool/RCutil.c:162-178 | with nonzero pivots the substitution solves the original system |
| LupSolve.Matinv | hotspot_tool/RCutil.c:804-813 | when it completes the result is a right inverse of the original; a zero last pivot means the matrix is singular |
| BlockModel.AssembleB | hotspot_tool/temperature_block.c:250-272 | in place: minus the links off the diagonal, on it their sum and the link to the ambient |
| BlockModel.SeriesFlow | hotspot_tool/temperature_block.c:250-258 | whatever a middle node that draws no power passes on is the entry's conductance times the difference of the ends, and it can always be at rest |
| BlockModel.MiddlesEliminated | hotspot_tool/temperature_block.c:250-272 | with a middle node at rest between any two nodes, a row of B times the temperatures is what the node loses over its own halves and to the ambient; B eliminates them |
| BlockModel.MiddlesExist | hotspot_tool/temperature_block.c:250-258 | for all temperatures the middle nodes can be at rest together |
| BlockModel.AmbientOf | hotspot_tool/temperature_block.c:260-268 | only the heat sink's blocks and its own nodes are linked to the ambient, each by its own entry |
| BlockModel.SymmetricSemidefinite | hotspot_tool/temperature_block.c:274-289 | B is symmetric and no vector has negative dissipation |
| BlockModel.QuadraticIsDissipation | hotspot_tool/temperature_block.c:283-286 | x'Bx is the sum over links of |b_ij|(x_i-x_j)^2 plus the sum of amb_i x_i^2 |
| BlockModel.PositiveDefiniteIffLinked | hotspot_tool/temperature_block.c:274-287 | B is positive definite exactly when every node is linked to the ambient; the comment in the source claims it always is |
| BlockModel.FloatingExample | hotspot_tool/temperature_block.c:274-287 | with no conductance to the ambient the all-ones vector has no dissipation, so B is not positive definite |
| BlockModel.AmbientIsSteady | hotspot_tool/temperature_block.c:382-389 | with no block power the uniform ambient temperature solves the system |
| BlockModel.NowhereBelowAmbient | hotspot_tool/temperature_block.c:398-411 | with nonnegative power and every node linked no temperature is below ambient |
| BlockModel.LinkedPivots | hotspot_tool/temperature_block.c:288-289 | then all pivots of the decomposition are nonzero, the last one included |
| BlockModel.SetInternalPower | hotspot_tool/temperature_block.c:382-389 | in place: package layers cleared, heat sink and package nodes get ambient times conductance |
| BlockModel.SteadyStateTempBlock | hotspot_tool/temperature_block.c:398-411 | the temperatures solve B T = P and are at least ambient |
| GridStencil.FixedPointIffSteady | hotspot_tool/temperature_mobile.c:1154-1234 | a field is reproduced by the sweep exactly when every cell is balanced |
| GridStencil.SweepMonotone | hotspot_tool/temperature_mobile.c:1183-1234 | the in-place sweep is monotone in power and temperature, cell by cell |
| GridStencil.SweepsRise | hotspot_tool/temperature_mobile.c:1183-1234 | from all-ambient with nonnegative power no sweep lowers a temperature or goes below ambient, for any number of sweeps |
| GridStencil.SweepsBelowSteady | hotspot_tool/temperature_mobile.c:1183-1234 | and none of them passes a steady field |
| GridStencil.SteadyAboveAmbient | hotspot_tool/temperature_mobile.c:1183-1234 | a steady field with nonnegative power is nowhere below ambient |
| GridStencil.SteadyUnique | hotspot_tool/temperature_mobile.c:1183-1234 | two steady fields for the same power are equal on every cell |
| GridSolution.SteadyExists | hotspot_tool/temperature_mobile.c:1183-1234 | for every power there is a steady field |
| GridSolution.SweepsBounded | hotspot_tool/temperature_mobile.c:1183-1234 | sweeps from all-ambient rise below one bound, the steady field |
| GridMultigrid.SweepResidual | hotspot_tool/temperature_mobile.c:1402-1408 | if a sweep changed no cell by d or more, the flows left over are bounded by d times the conductances to later neighbours |
| GridMultigrid.SweepUnchangedIffSteady | hotspot_tool/temperature_mobile.c:1183-1234 | a sweep changes nothing exactly when the field was steady |
| MobileGrid.SingleIterationSteadyGrid | hotspot_tool/temperature_mobile.c:1183-1234 | the in-place triple loop is the sweep that reads new values north, west and above; the reported change is the largest, zero exactly on steady fields |
| GridMultigrid.HeuristicResidual | hotspot_tool/temperature_mobile.c:1117-1152 | what the heuristic leaves unbalanced in a cell is exactly its lateral flow |
| GridMultigrid.HeuristicSteadyIff | hotspot_tool/temperature_mobile.c:1117-1152 | the heuristic is exact if and only if no cell has lateral flow |
| GridMultigrid.HeuristicExact | hotspot_tool/temperature_mobile.c:1117-1152 | exact whenever the power of each layer is uniform, so at 1 by 1 |
| MobileGrid.SetHeuristicTemp | hotspot_tool/temperature_mobile.c:1117-1152 | in place: running power sums down and up give the heuristic field |
| GridMultigrid.RestrictionKeepsPower | hotspot_tool/temperature_mobile.c:1242-1258 | restriction keeps the total power of every layer |
| GridMultigrid.RestrictionLocal | hotspot_tool/temperature_mobile.c:1242-1258 | power in one fine cell only goes whole to the coarse cell covering it |
| NestedIteration.MultigridRestrictPower | hotspot_tool/temperature_mobile.c:1242-1258 | in place: every coarse cell is the sum of its four |
| GridMultigrid.InterpolatedWithin | hotspot_tool/temperature_mobile.c:1267-1330 | a prolonged value lies between bounds of the coarse layer |
| GridMultigrid.InterpolatedBilinear | hotspot_tool/temperature_mobile.c:1267-1330 | away from the rim prolongation reproduces every bilinear field |
| GridMultigrid.InterpolatedLocal | hotspot_tool/temperature_mobile.c:1267-1330 | a coarse field that is zero off one cell reaches the cells away from the rim by weights that fall off with distance, and on the rim only the four it covers, unchanged |
| NestedIteration.MultigridProlongTemp | hotspot_tool/temperature_mobile.c:1267-1330 | in place: interior, sides and corners together write every fine cell with its interpolated value |
| GridMultigrid.CoarseKeepsTotals | hotspot_tool/temperature_mobile.c:1365-1375 | halving an even grid keeps what every layer conducts in all vertically and along both axes, and its capacity |
| NestedIteration.GridModel.Refine | hotspot_tool/temperature_mobile.c:1393-1400 | undoes the halving of sizes and layer constants exactly |
| NestedIteration.GridModel.RecursiveMultigrid | hotspot_tool/temperature_mobile.c:1348-1413 | for powers of two rows, columns and layer constants are restored; a converged result has small residuals and is at least ambient; at 1 by 1 it is exact |
| GridSlope.ResidualsTotal | hotspot_tool/temperature_mobile.c:1459-1492 | flows between cells cancel in pairs over the whole grid |
| GridSlope.EnergyBalance | hotspot_tool/temperature_mobile.c:1459-1492 | capacitance times slope over all cells is total power plus inflow from the ambient |
| GridSlope.SlopeZeroIffSteady | hotspot_tool/temperature_mobile.c:1459-1492 | the slope vanishes exactly on the steady fields of the sweep |
| GridSlope.SlopeFnGrid | hotspot_tool/temperature_mobile.c:1459-1492 | in place: every cell's slope is its residual over its capacitance |
| GridOccupancy.PartsSum | hotspot_tool/temperature_grid.c:380-456 | along one axis the fractions of a block add up to its extent between moved edges |
| GridOccupancy.ExactIff | hotspot_tool/temperature_grid.c:380-456 | for every block on the grid that is its length exactly when, over several cells, both edges are moved alike, or, within one cell, it is empty, exactly a cell long, or inside the cell and neither nearly empty nor nearly a cell long |
| GridOccupancy.NearlyExact | hotspot_tool/temperature_grid.c:380-456 | it never misses the length by three tolerances or more |
| GridMapSpec.ShareTotal | hotspot_tool/temperature_grid.c:372-472 | over all cells a block's occupancies add up to the product of its two extents |
| GridMapSpec.ShareIsIntersection | hotspot_tool/temperature_grid.c:372-472 | for edges clear of the lines, cell area times occupancy is the area block and cell have in common, rows counted from the top |
| GridMapSpec.AreaKeptIff | hotspot_tool/temperature_grid.c:372-472 | for every block on the grid: occupied area is its area exactly when the lengths occupied along the axes, told from the edges, multiply to its sides in cells |
| GridMapSpec.AreaKeptIffOtherSide | hotspot_tool/temperature_grid.c:372-472 | if one side keeps its length, the area is kept exactly when the other side does |
| GridMapSpec.MappedAreaIs | hotspot_tool/temperature_grid.c:372-472 | for edges clear of the lines the area is kept |
| GridMapSpec.SnappedExample | hotspot_tool/temperature_grid.c:380-456 | an edge within the tolerance past a line: the occupied area falls short |
| GridMapSpec.SharesSumToOneIff | hotspot_tool/temperature_grid.c:3550-3570 | if blocks tile the chip, the occupancies in a cell never add up to more than 1, and to 1 exactly if every block touching the cell has no area or, told from its edges along both axes, gets all that lies between its moved edges |
| GridMapSpec.OnGridFits | hotspot_tool/temperature_grid.c:380-456 | edges clear of the lines meet that condition |
| GridMapSpec.SharesNearlyOne | hotspot_tool/temperature_grid.c:3550-3570 | in any case they miss 1 by at most four tolerances for each block in the cell |
| GridMapSpec.LostSliverExample | hotspot_tool/temperature_grid.c:380-456 | a tiling of three blocks whose occupancies in a cell add up to 0.9999995 |
| GridOccupancy.FractionFills | hotspot_tool/temperature_grid.c:419-458 | along an axis a block never gets more of a cell than lies between its moved edges, and as much exactly under a condition on its edges |
| GridMap.TestB2gmap | hotspot_tool/temperature_grid.c:3550-3570 | stops exactly if in some cell the occupancies add up to less than 0.999995 or to 1.000005 or more |
| GridMap.CellOccupancy | hotspot_tool/temperature_grid.c:419-458 | the case analysis at the edges of the block comes to the product of two fractions, never negative |
| GridMap.SetBgmap | hotspot_tool/temperature_grid.c:358-473 | succeeds exactly when every block's cells are on the grid, and then every cell lists its blocks with their occupancies; overlaps are never negative |
| GridMap.BlistAvg | hotspot_tool/temperature_grid.c:340-355 | the walk over the list gives the weighted average |
| GridMapSpec.TemperatureIsAverage | hotspot_tool/temperature_grid.c:340-355 | for every tiling a cell is not above the hottest block, if that is not below zero; if every block touching it gets all between its moved edges, it lies between the bounds of the blocks |
| GridMapSpec.TemperatureIsAverageIff | hotspot_tool/temperature_grid.c:340-355 | it lies between the bounds for all temperatures exactly under that condition |
| GridMapSpec.LayerPower | hotspot_tool/temperature_grid.c:1983-2008 | cell area times power densities over a layer is what the blocks deliver |
| GridMapSpec.AllPowersKeptIff | hotspot_tool/temperature_grid.c:1983-2008 | it does so for all powers exactly when every block keeps its area |
| GridMapSpec.DeliveredIsTotal | hotspot_tool/temperature_grid.c:1983-2008 | for blocks clear of the lines that is the total power |
| GridMap.XlateVectorB2G | hotspot_tool/temperature_grid.c:1972-2013 | in place: every cell gets the average of its list, times the cell area for power; powers keep the delivered total |
| GridMap.XlateAll | hotspot_tool/temperature_grid.c:1972-2013 | in place, all layers: each from its own stretch of the vector, and the extra nodes from the rest |
| TilingMeasures.TilingMeasure | hotspot_tool/temperature_grid.c:3550-3570 | blocks that tile a chip and lie in it add up to it under every additive measure |
| SparseMatrix.Coo2Csc | hotspot_tool/util.c:570-613 | in place: sorted rows and values, the start of every column up to the last nonempty one; repeated positions reported exactly |
| SparseMatrix.ConversionDenotes | hotspot_tool/util.c:570-613 | the compressed columns stand for the same matrix; all pointers are set exactly when the last column has an element |
| SparseMatrix.UnsetPointerExample | hotspot_tool/util.c:570-613 | two columns, elements in the first only: the last pointer stays as it was |
| SparseMatrix.PermutedEntry | hotspot_tool/util.c:562-576 | sorting does not change the entries |
| SparseMatrix.SparseMatrixMulVector | hotspot_tool/util.c:774-809 | in place: the vector becomes the matrix times the vector |
| SparseMatrix.ProductIsCoo | hotspot_tool/util.c:774-809 | multiplying by converted columns multiplies by the matrix of the coordinates |
| NodeNetwork.SolvesIffBalanced | hotspot_tool/temperature_grid.c:5083-6021 | rows of link conductances pose exactly the balance of every node |
| NodeNetwork.UnchangedIffSolved | hotspot_tool/temperature_grid.c:2539-2731 | relaxing every node once in turn changes nothing exactly on solutions |
| GridAssembly.WhereIs | hotspot_tool/temperature_grid.c:5209-5784 | the nine tests on the cell number single out corners, edges and the interior |
| GridAssembly.CellElements | hotspot_tool/temperature_grid.c:5086-5821 | the nine branches emit exactly the row of the cell |
| GridAssembly.PackElements | hotspot_tool/temperature_grid.c:5825-6021 | the twelve package rows |
| GridLinks.NetworkColumnsDiffer | hotspot_tool/temperature_grid.c:5083-6021 | no node is linked to itself or twice to another, and links stay in the network |
| GridLinks.NetworkLinked | hotspot_tool/temperature_grid.c:2174-2310 | every node has positive total conductance, so no sweep divides by zero |
| GridCount.ElementsAreNnz | hotspot_tool/temperature_grid.c:5056-5073 | the elements emitted number exactly the closed formula |
| GridMatrix.EachPositionOnce | hotspot_tool/temperature_grid.c:5083-6021 | no position is emitted twice and every column has its diagonal |
| GridMatrix.AssembleAll | hotspot_tool/temperature_grid.c:5083-6021 | in place: the coordinate arrays hold the rows of all nodes and are exactly full, every write inside them |
| GridMatrix.BuildTransientGridMatrix | hotspot_tool/temperature_grid.c:5005-6321 | the check of the count never fails, no position repeats, all n+1 column pointers are set |
| GridDirect.BuildTransientPowerVector | hotspot_tool/temperature_grid.c:6334-6482 | the right-hand side is power plus what the conductance to the ambient adds, for cells and package |
| GridDirect.DirectIffBalanced | hotspot_tool/temperature_grid.c:5005-6321 | a field satisfies the compressed equation exactly when every cell and package node is balanced |
| GridPackSweep.CellSums | hotspot_tool/temperature_grid.c:2478-2712 | the macros and the package cases sum exactly the conductances and weighted temperatures of the cell's links |
| GridPackSweep.PackSums | hotspot_tool/temperature_grid.c:2203-2310 | the same for the twelve package nodes, with one quotient for a whole row or column |
| GridSteady.SingleIterationSteadyGrid | hotspot_tool/temperature_grid.c:2539-2731 | in place over cells and package: the largest change is zero exactly when nothing changed, exactly when the field it started from balances every node |
| GridSteady.UnchangedIffDirectlySolves | hotspot_tool/temperature_grid.c:5005-6482 | a field is unchanged by a sweep exactly when it solves the separately assembled equation |
| NetworkSolution.SolutionExists | hotspot_tool/temperature_grid.c:5083-6021 | a network in which every node drains to the ambient has a solution |
| NetworkSolution.SolutionUnique | hotspot_tool/temperature_grid.c:5083-6021 | and no two |
| GridWellPosed.ExactlyOneSolution | hotspot_tool/temperature_grid.c:5005-6482 | the direct solver's equation has exactly one solution for every power, nowhere below ambient if no cell draws power |
| GridNodes.LateralExchanged | hotspot_tool/temperature_grid.c:111-127 | the conductance to the row above is the one to the column on the left of the small grid model, and the other way round; the models agree exactly if the two resistances are equal |
| GridNodes.VerticalAgree | hotspot_tool/temperature_grid.c:111-127 | to the layer below by the cell's own resistance, to the one above by that one's, to the ambient by the last one's, as in the small grid model |
| GridNodes.RimsInParallel | hotspot_tool/temperature_grid.c:5209-5784 | with half a cell taken off, the cells along an edge together conduct what the resistance of the edge does |
| GridPackage.CellLinksAre | hotspot_tool/temperature_grid.c:5086-5821 | a cell is linked to the cells it shares a face with, by the resistance of that direction, at the edges of spreader and sink to the node of that side, and to nothing else |
| GridPackage.PackLinksAre | hotspot_tool/temperature_grid.c:5825-6021 | the twelve package nodes told for all sides at once: edge cells, inner and outer node of the same side, and their conductances |
| GridPackage.LinksRunBothWays | hotspot_tool/temperature_grid.c:5083-6021 | every link has one back with the same conductance |
| GridPackage.MatrixSymmetric | hotspot_tool/temperature_grid.c:5083-6021 | so the matrix assembled is symmetric |
| WindowSpec.ParseKeeps | gpu-simulator/accel-sim.cc:92-120 | reading fills the window or ends the list, and keeps the invariant |
| WindowSpec.LaunchKeeps | gpu-simulator/accel-sim.cc:53-68 | a launch pass keeps the invariant if refusals last for the pass |
| WindowSpec.LaunchedIff | gpu-simulator/accel-sim.cc:53-68 | a pass launches exactly the kernels that are the first accepted one of a free stream |
| WindowSpec.LaunchedLogged | gpu-simulator/accel-sim.cc:53-68 | and launches them in window order |
| WindowSpec.ExclusiveIffFalling | gpu-simulator/accel-sim.cc:53-68 | launched kernels never share a stream, whatever the window holds, if and only if the GPU never accepts after refusing in a pass |
| WindowSpec.CleanupKeeps | gpu-simulator/accel-sim.cc:122-146 | retiring a launched kernel frees its stream and keeps the invariant |
| WindowSpec.StepKeeps | gpu-simulator/accel-sim.cc:48-89 | one round retires one kernel, keeps the invariant and never lowers the read position |
| WindowSpec.RunKeeps | gpu-simulator/accel-sim.cc:40-90 | over a run: window bound, busy streams exactly those of launched kernels without duplicates, only the first of a stream launched |
| WindowSpec.RunEnds | gpu-simulator/accel-sim.cc:40-90 | a run has at most as many rounds as kernels; with all, everything was launched and retired |
| WindowSpec.LaunchedInCommandOrder | gpu-simulator/accel-sim.cc:40-90 | kernels of one stream launch in command order |
| WindowSpec.EmptyAfterParse | gpu-simulator/accel-sim.cc:92-120 | the window is empty after reading exactly when it was and only copies remain |
| WindowSpec.LeftOverIff | gpu-simulator/accel-sim.cc:40-90 | after as many rounds as kernels the window is empty, and commands are left exactly when they end with a copy and the window size is 1 or nothing is launched |
| WindowSpec.LeftOverExample | gpu-simulator/accel-sim.cc:144-144 | one launch, then a copy, a window of one: the copy is still to be read |
| KernelWindow.Framework.ParseCommandlist | gpu-simulator/accel-sim.cc:92-120 | in place: the object goes through the states of the specification |
| KernelWindow.Framework.LaunchKernels | gpu-simulator/accel-sim.cc:53-68 | the same for a launch pass |
| KernelWindow.Framework.RetireKernel | gpu-simulator/accel-sim.cc:122-146 | the same for retiring a kernel |
| KernelWindow.Framework.SimulationLoop | gpu-simulator/accel-sim.cc:40-90 | follows the run; if the rounds suffice it ends in a round without a kernel, where the source asserts one, exactly when the commands end with a copy and the window size is 1 or nothing is launched, and otherwise with everything done |

## Left out

- BuildTransientGridMatrix: only for the primary package path and `detailed_3D` off; the secondary path adds nodes and layers of the same kinds, and with `detailed_3D` the sweep and the matrix use different resistances.
- AssembleAll: the same restriction.
- BuildTransientPowerVector: the same restriction.
- DirectIffBalanced: the same restriction.
- ExactlyOneSolution: the same restriction.
- UnchangedIffDirectlySolves: the same restriction.
- SingleIterationSteadyGrid: for the large grid model the same restriction to the primary package path and `detailed_3D` off; cell and package temperatures are one flat array, as they lie in memory.
- Anneal: the cost is any function of the floorplan, the exponential any function, and each trial has an arbitrary random fraction; the power vector and L2 and rim are off in the rounds, and their wrapping of an evaluated floorplan is `WrapStep`.
- Round: the same.
- Stage: the same; a step without moves rejects nothing.
- TryMove: when no move is found the program stops, and nothing is said about the run then.
- MakeRandomMove: the random choices are arbitrary; nothing is said about their distribution.
- ShapeFromAspect: roots and integer powers are functions with the laws of roots and powers.
- FlpWrapL2: the square root is a function with the law of a square root on nonnegative numbers.
- FlpWrapRim: names, connectivity and wire densities of the strips are not modelled.
- RestoreDeadBlocks: names and wire densities of the restored blocks are not modelled.
- WrapStep: with the rim, edges must be clear of the chip's by the tolerance, since `flp_wrap_rim` compares with it and the room allocated need not suffice otherwise (`ThinExample`).
- FlpCreateGrid: names and wire densities of the cells are not modelled; edges are taken to be equal or at least the tolerance apart.
- SetBgmap: the resistances and capacitances kept in the lists, used with `detailed_3D` only, are not modelled.
- Coo2Csc: the library's sorting routine is any function that returns a sorted permutation.
- RecursiveMultigrid: the loops that sweep until the change is below the tolerance get an allowance of sweeps; convergence itself is not proved.
- CleanupKeeps: the instruction and cycle limits and the branch for an inactive GPU are not modelled.
- RetireKernel: the same.
- SimulationLoop: the instruction and cycle limits, the inner cycle loop of `simulate`, and the branch of `cleanup` for an inactive GPU are not modelled.
- SteadyStateTempBlock: how the conductances are computed from geometry is not modelled; any nonnegative conductances are allowed.
- Rounding, overflow and `LARGENUM`; the vendor linear algebra and SuperLU branches; allocation failure.
- `gaussj`, `rk4`, `backward_euler`, the transient slope with package nodes, and the steady-state grid matrix that is built by separate code.
- `xlate_temp_g2b` and the other vector translations, leakage, package convection formulas, wire metrics.
- File formats, option tables, printing, trace parsing.
