# Verified models of the seed search

This project models the hard logic of the seed search and of the cubiomes library that it
carries, and proves what that logic is for. Each module follows one component; the
statements are about every input, every run or every reachable state.

| module | component |
|---|---|
| `BiomeTree`, `BiomeVolume` | branch-and-bound search for the nearest biome in climate space, and its hints through a volume |
| `LayerSeeds`, `LayerRules`, `LayerFilters`, `LayerZoom`, `LayerMix`, `LayerStack`, `Buffer` | the layered generator: one shared buffer, rewritten in place, and its size |
| `Voronoi` | access at scale 1, block by block or through a sampled source volume |
| `EndBiome` | the windowed End classification against brute force |
| `LargestRectangle`, `FillQueue`, `FloodFill`, `FillScan`, `BiomeCenters` | grid algorithms |
| `Fortress` | the nether fortress builder |
| `JavaRandom`, `Xoroshiro`, `BoundedDraws`, `ModInverse` | generators, bounded draws, modular inverses |
| `Structures`, `QuadBase`, `HexXor`, `LostSeed`, `QuadScan`, `SeedSearch` | structure attempts and the search for quad structures |
| `Workers`, `Shutdown`, `SeedBlocks` | the producer and consumer threads, and how the program ends them |
| `Arith`, `Grid`, `Options`, `Versions` | machine words, row-major rectangles, missing values, identifiers |

Code that works in place is modelled by methods on arrays and objects, each proved against
a function or relation on values; what the source promises is then proved of that function.
Machine words are integers reduced explicitly (`U64`, `S64`, `S32`).

## Reading the main results

* **Nearest biome.** The pruned search returns exactly what a scan of all leaves returns,
  ties included, for every table in which boxes below the root contain their children. The
  root's own box is never tested by the search, and in the shipped tables it contains
  nothing, so it is exempt. A hint that is a leaf cannot change the distance found. The hint
  0, with which the buffered generator starts, is the root; it is returned itself when no
  leaf is strictly nearer than its box. That is so in every table for every point of the
  root's box, which in the shipped tables is the origin. In a volume generated with hints, a
  cell gets a nearest leaf if and only if it or a cell before it has a leaf nearer than that
  box.
* **Layers.** `LayerStack.CellFn` gives a tree of layers one value per absolute position.
  Generating any rectangle in place, in a buffer with any contents, leaves exactly these
  values, so windows agree where they overlap. A zoom reads one column and one row beyond
  its parent; `LayerRules.Local` says why this never shows. The size formula covers all that
  the recursion touches.
* **Largest rectangle.** The stack is not emptied after the last row, so the function finds
  the largest rectangle that some cell below it, inside the grid, stops from growing. This
  is the largest rectangle for all grids with a given last row exactly when that row has no
  match. If it has one, the entries left on the stack by the columns to the right raise it,
  and it leaves its array exactly when they and the levels open in some row are more than
  the longer side (`Overruns`); a two by two grid already does. The number of levels is a
  count on the run lengths: the rises that no later run undercuts.
* **Flood fill.** The stack never needs more places than the grid has cells, as the source
  assumes: every entry but two is charged to a vertical grid edge of its own. The fills of a
  scan are disjoint and exact for every tolerance and step. With tolerance 1, in every
  version, they are the components of the matching cells that contain a candidate at a step.
* **Quad bases.** The early rejections lose nothing exactly for those sizes for which no
  block is in reach of two corners 13 and 9 chunks, and the size, apart; for sizes even in
  plan this is an inequality. Witch huts have such a size. Structures taken without size
  have not: the seed 198777445136620 has four desert pyramids in reach of one block and is
  rejected. In general a base is accepted exactly when the guards hold and a centre exists.
* **Scan for quads.** The scan lists the hits in the rows that the low bits select, before
  coordinates are narrowed to `int`. A hit is listed exactly when narrowing moves the seed by
  a multiple of the power of two, and every hit of every region exactly for at most 32 low
  bits; for more, a hit at region (0, -2^31) is missed.
* **Search of all seeds.** For 32768 and more threads a signed product overflows, which C
  leaves undefined; below, the ranges are exact. A thread whose start has low bits beyond
  the last listed value reads past the list; starts aligned to the low bits never do. The
  blocks are copied to an `int` place, so the merge is right exactly when the last block
  starts below 2^31. Without a list the check that always passes exceeds this for every
  number of threads; with one, the number of listed values decides before the search. When none of this happens, the buffer is the ascending list of all
  seeds that pass.
* **Modular inverse.** The result is the inverse for coprime arguments and 0 otherwise, but
  for the argument 0, which the header excludes and which yields 1.
* **Draws.** Each value has the same number of accepted raw draws, powers of two included.
  `nextInt` is shown to end for every state, because the generator has full period.
  `xNextIntJ` cannot end for bounds above 2^31, as no draw is accepted.
* **Workers.** Once all threads have left, every candidate was processed exactly once if and
  only if none was queued after the last thread left. The program's main thread stops the
  GPU threads, then the CPU threads, and only then joins both; a GPU thread in a batch
  queues what it found after its stop. So a run of the program processes everything if and
  only if no batch with a result is queued after the last CPU thread has left, and for every
  number of CPU threads all runs do so if and only if there is no GPU thread. Joining the
  GPU threads before stopping the CPU threads would lose nothing, in any run.

## Model

| member | source | states |
|---|---|---|
| BiomeTree.NpDist | cubiomes/biomenoise.c:1369-1386 | the distance on wrapping words with sign tests is the squared distance to the box |
| BiomeTree.FindStride | cubiomes/biomenoise.c:1391-1399 | the leading loop finds the first stride that stays in the table |
| BiomeTree.ResultingNode | cubiomes/biomenoise.c:1388-1431 | the pruned search returns the leaf that a plain scan of all leaves below the node returns |
| BiomeTree.ScanMinimum | cubiomes/biomenoise.c:1388-1431 | such a scan ends in a leaf of minimal distance, the first of equals, or in its start value |
| BiomeTree.LeavesFarther | cubiomes/biomenoise.c:1409-1411 | no leaf below a box is nearer than the box, so skipping it is sound |
| BiomeTree.ClimateToBiome | cubiomes/biomenoise.c:1434-1484 | the lookup returns the scan's node, from the hint if there is one, and its biome byte |
| BiomeTree.FoundIsNearest | cubiomes/biomenoise.c:1472-1484 | without a hint a nearest leaf is found; with one, the hint itself or a strictly nearer nearest leaf |
| BiomeTree.LeafHintIsHarmless | cubiomes/biomenoise.c:1472-1479 | a leaf as hint changes which equally near leaf is found, never the distance |
| BiomeTree.ZeroHint | cubiomes/biomenoise.c:1563-1584 | the start hint 0 yields a nearest leaf exactly when some leaf is strictly nearer than the root's box |
| BiomeTree.ZeroHintFails | cubiomes/biomenoise.c:1563-1584 | for every table and every point of the root's box the start hint 0 returns the root, which is no leaf |
| BiomeTree.OriginHintFails | cubiomes/biomenoise.c:1563-1584 | so at the origin whenever the root's box is the origin on all axes, as in the shipped tables |
| BiomeVolume.GenBiomeNoise3D | cubiomes/biomenoise.c:1563-1586 | every cell of the volume, in order, gets the biome of the node that its lookup finds with the node before as hint, or without hint |
| BiomeVolume.CellSettled | cubiomes/biomenoise.c:1563-1586 | with hints a cell gets a nearest leaf if and only if some cell up to it has a leaf nearer than the root's box; all cells before get the root |
| BiomeVolume.SettledIsExact | cubiomes/biomenoise.c:1563-1586 | from that cell on the distance is the one found without hints |
| LayerSeeds.FirstIntIsFloorMod | cubiomes/rng.h:292-303 | the first draw is the floor remainder of the signed high bits; the zero test tests it |
| LayerSeeds.FloorDivFloors | cubiomes/rng.h:75-80 | the quotient is rounded to minus infinity for divisors of either sign |
| LayerRules.CoastIsGame | cubiomes/layers.c:311-369 | the unrolled corner draws give the cell of the game's own loop, which the comment there quotes |
| LayerRules.Select4FindsMode | cubiomes/layers.c:166-185 | the most frequent of four values is selected, and one is drawn exactly when there is none |
| LayerRules.ZoomAddsNothing | cubiomes/layers.c:189-265 | a zoomed map has only values that the parent has next to the place |
| LayerFilters.MapFilter | cubiomes/layers.c:753-789 | rewriting in place for mushroom and smooth: no parent cell is read after it was overwritten |
| LayerFilters.MapIsland | cubiomes/layers.c:532-571 | the same for islands, whose cell is written before its neighbours are read |
| LayerFilters.MapLand | cubiomes/layers.c:284-379 | the same for land, with the cells behind the cursor kept in variables |
| LayerFilters.MapHills | cubiomes/layers.c:1101-1247 | the same for hills, with the second parent behind the first |
| LayerZoom.BlockIsGood | cubiomes/layers.c:223-256 | a block made from wrong right or lower parents is right where these do not matter |
| LayerZoom.Expand | cubiomes/layers.c:208-256 | all rows and columns of the expansion but the last are right, although cells beyond the parent are read |
| LayerZoom.MoveWindow | cubiomes/layers.c:258-261 | moving rows to the front never overwrites cells that are still to be moved |
| LayerZoom.MapZoom | cubiomes/layers.c:85-160 | after zooming, the rectangle holds the zoom of the parent map at its absolute position |
| LayerMix.MapContinent | cubiomes/layers.c:62-83 | every cell is the draw of its position, and the origin is land in every rectangle that contains it |
| LayerMix.MapRiverMix | cubiomes/layers.c:1573-1605 | biomes and rivers are mixed cell by cell in place |
| LayerMix.FindBorder | cubiomes/layers.c:1651-1675 | the border covers every offset from -8 to 8 around warm and frozen cells, interior cells included |
| LayerMix.MapOceanMix | cubiomes/layers.c:1636-1737 | the reduced land rectangle gives the definition by an unlimited land map |
| LayerStack.Generate | cubiomes/layers.c:189-265 | a tree of layers generates the rectangle of its per-cell map in place, from any buffer contents, within the stated memory |
| LayerStack.WindowsAgree | cubiomes/layers.c:189-265 | two generated rectangles agree wherever they overlap, since every map function computes cells by absolute position |
| LayerStack.Sizes.GetMaxArea | cubiomes/generator.c:563-592 | the recursion through pointers computes the maxima and the sum of the recursive definition |
| LayerStack.CacheCovers | cubiomes/generator.c:563-592 | a layer visited with an area finds what it needs for any smaller rectangle within the result |
| LayerStack.CacheSuffices | cubiomes/generator.c:594-600 | the size is at least what generation touches, at every position and size |
| LayerStack.GetMinLayerCacheSize | cubiomes/generator.c:594-600 | the size is the sum plus the product of the maxima |
| LayerStack.GenArea | cubiomes/generator.c:602-606 | a buffer of that size suffices to obtain the map |
| Voronoi.DistWord | cubiomes/layers.c:2156-2172 | the distance on 64-bit words is the exact sum of squares |
| Voronoi.VoronoiAccess3D | cubiomes/layers.c:2137-2181 | the loop chooses the cell of the reference |
| Voronoi.ChosenIsNearest | cubiomes/layers.c:2154-2181 | no cell of the eight is nearer to the block than the chosen one, which is the first of equals |
| Voronoi.ChosenInSource | cubiomes/biomenoise.c:1946-1973 | every cell a block of the range can choose lies in the source range |
| Voronoi.SourceFits | cubiomes/generator.c:162-168 | output and source copy together fit the cache size |
| Voronoi.GenBiomeNoiseScaled | cubiomes/biomenoise.c:1588-1632 | at scale 1 the buffered volume holds the sample of every block's own cell |
| EndBiome.MinFromIsMinimum | cubiomes/biomenoise.c:530-551 | the running value is a lower bound of all contributions and one of them |
| EndBiome.GetEndHeight | cubiomes/biomenoise.c:521-556 | the brute-force loops compute that minimum, also for negative coordinates |
| EndBiome.HeightClass | cubiomes/biomenoise.c:815-823 | thresholds on the clamped height are thresholds on the integer under an exact square root |
| EndBiome.OffsetTable | cubiomes/biomenoise.c:382-391 | the table entry is the squared odd offset for coordinates of either sign |
| EndBiome.CapIsHarmless | cubiomes/biomenoise.c:394-397 | capping the start value at 14401 cannot change the class |
| EndBiome.GetEndBiome | cubiomes/biomenoise.c:379-428 | the windowed minimum has the class of the brute-force height |
| EndBiome.MapEndBiome | cubiomes/biomenoise.c:430-488 | every cell of the output is the brute-force biome of its position |
| LargestRectangle.RunMeaning | cubiomes/finders.c:5578-5586 | run lengths say how far a row matches to the right |
| LargestRectangle.GetLargestRec | cubiomes/finders.c:5570-5617 | the largest rectangle that a cell below inside the grid stops, with its corners, or 0; it leaves its array exactly when some column stacks too many levels |
| LargestRectangle.DepthIsCount | cubiomes/finders.c:5587-5614 | the stack is as deep as there are rises of the run lengths that no later run undercuts |
| LargestRectangle.ClearRowFits | cubiomes/finders.c:5570-5617 | with a clear last row the stack stays in its array |
| LargestRectangle.CornerOverruns | cubiomes/finders.c:5570-5617 | a two by two grid for which it does not |
| LargestRectangle.ClearLastRow | cubiomes/finders.c:5570-5617 | with a clear last row this is a largest rectangle of the grid |
| LargestRectangle.RightForEveryGrid | cubiomes/finders.c:5570-5617 | the result is right for every grid with a given last row exactly when this row has no match |
| LargestRectangle.MissedInLastRow | cubiomes/finders.c:5587-5614 | for matches only in the last row the function returns 0, and nothing else |
| FillQueue.KeyedVisit | cubiomes/finders.c:4448-4456 | visiting a cell keeps an assignment of grid edges to the entries of the stack, no edge twice |
| FillQueue.KeyedBound | cubiomes/finders.c:4410 | so the stack has at most one entry for each cell of the grid |
| FloodFill.FloodFillGen | cubiomes/finders.c:4406-4466 | the fill ends, stays in its array, marks what it visits, and its sums are those of the counted cells |
| FloodFill.FillResult | cubiomes/finders.c:4417-4458 | counted cells are distinct matching cells reached within the tolerance, and none has an unmarked neighbour left |
| FloodFill.UnitTolerance | cubiomes/finders.c:4417-4458 | with tolerance 1 the counted cells are exactly those connected to the start |
| BiomeCenters.FillIsComponent | cubiomes/finders.c:4579-4597 | a fill among earlier fills counts one whole connected component |
| FillScan.FillsMeaning | cubiomes/finders.c:4579-4597 | for any tolerance and step the fills of a scan are disjoint, count matching cells reached within the tolerance, and leave none unmarked beside them |
| FillScan.ReportFills | cubiomes/finders.c:4571-4603 | fills of at least the given size are reported with exact size and sums, until the limit is reached; every candidate at a step is passed |
| BiomeCenters.AreasAreComponents | cubiomes/finders.c:4579-4597 | with tolerance 1 each area is a whole component of the cells that match, sampled anew or not, or empty, and every matching candidate at a passed step is in one |
| BiomeCenters.GetBiomeCenters | cubiomes/finders.c:4469-4603 | for any version, tolerance and size: the fills that are made, their report up to the limit, and with tolerance 1 the components |
| Fortress.TriedByWeight | cubiomes/finders.c:2735-2752 | the first type tried is the one in whose weight interval the draw falls, unless it must not be repeated |
| Fortress.PieceEnv.Candidates | cubiomes/finders.c:2722-2731 | total weight of the types left, and whether a limited one is left |
| Fortress.PieceEnv.AddFortressPiece | cubiomes/finders.c:2623-2689 | a piece is accepted exactly if it touches no accepted piece, and is then appended to list, counts and queue |
| Fortress.PieceEnv.Attempt | cubiomes/finders.c:2737-2752 | one attempt places the first fitting type among those tried for its draw |
| Fortress.PieceEnv.ExtendFortress | cubiomes/finders.c:2693-2757 | the list becomes that of the extension on values: nothing, one piece of the group, or an end piece |
| Fortress.ExtensionAttaches | cubiomes/finders.c:2704-2720 | what is added is attached at the exit, with its facing, one level deeper, and of its group |
| Fortress.PieceEnv.ExtendFortressPiece | cubiomes/finders.c:2760-2796 | list, counts, last type and draws become those of the extensions at the exits of the piece, one after the other |
| Fortress.ContinuedAttaches | cubiomes/finders.c:2760-2796 | what a continued piece adds is attached at exits of its type, at most one piece at each, in their order |
| Fortress.LinkRemove | cubiomes/finders.c:2845-2846 | unlinking the picked entry leaves the other entries linked in order |
| Fortress.PieceEnv.TakeRandom | cubiomes/finders.c:2836-2846 | the picked piece leaves the queue and all others stay queued |
| Fortress.MeasureDrops | cubiomes/finders.c:2834-2848 | extending a piece adds less weight, a power of 4 by depth, than it had |
| Fortress.PieceEnv.GetFortressPieces | cubiomes/finders.c:2798-2850 | the builder ends; all pieces are pairwise apart, within the limits of their types, near the start, and extended |
| BoundedDraws.AcceptedBelow | cubiomes/rng.h:107-112 | the sign test accepts exactly the draws below the largest multiple of n |
| BoundedDraws.Fair31 | cubiomes/rng.h:97-113 | every value has floor(2^31 / n) accepted 31-bit draws |
| BoundedDraws.Fair32 | cubiomes/rng.h:214-225 | every value has floor(2^32 / n) accepted 32-bit draws |
| BoundedDraws.NoDrawAbove | cubiomes/rng.h:250-266 | for unsigned bounds above 2^31 no draw is accepted |
| JavaRandom.FullPeriod | cubiomes/rng.h:91-95 | from every state every state is reached in fewer than 2^48 steps |
| JavaRandom.Random.NextInt | cubiomes/rng.h:97-113 | the loop ends and returns the value of the first accepted draw |
| JavaRandom.Random.SkipNextN | cubiomes/rng.h:152-173 | the jump equals n single steps for every 64-bit n |
| Xoroshiro.WordSource.NextInt | cubiomes/rng.h:214-225 | the value of the first accepted low word, if one is to come |
| Xoroshiro.WordSource.NextIntJ | cubiomes/rng.h:250-266 | the value of the first accepted high word, if one is to come |
| Xoroshiro.ZeroDraw | cubiomes/rng.h:214-225 | a zero word is accepted only for divisors of 2^32 |
| ModInverse.BalancedStep | cubiomes/rng.h:392-394 | the coefficients stay tied to the modulus, so they never overflow |
| ModInverse.MulInv | cubiomes/rng.h:378-400 | the inverse in [0, m) for coprime arguments, 0 otherwise, 1 for the argument 0 |
| ModInverse.InverseUnique | cubiomes/rng.h:375-377 | there is at most one inverse in [0, m) |
| ModInverse.InverseImpliesCoprime | cubiomes/rng.h:375-377 | only coprime arguments have an inverse |
| Structures.TopBitsAreFree | cubiomes/finders.h:747-783 | the top 16 seed bits do not influence structure attempts |
| Structures.GameChunk | cubiomes/finders.h:747-783 | the attempt without redraws is the game's, which redraws, whenever both first draws are accepted |
| Structures.MoveTranslates | cubiomes/finders.h:177-180 | a moved seed makes in a region the attempt that the original makes in the region moved back |
| Structures.MoveTranslatesBlocks | cubiomes/finders.h:786-792 | in blocks the structures are shifted by whole regions |
| Structures.MoveComposes | cubiomes/finders.h:177-180 | moves add up, and moving back restores the 48-bit seed |
| QuadBase.NextInt24Correct | cubiomes/rng.h:137-147 | multiplication and shift give the next state and the draw modulo 24 |
| QuadBase.EnclosingSquare | cubiomes/quadbase.h:210-253 | the loops find the least farthest-corner distance of the window |
| QuadBase.RadiusDecides | cubiomes/quadbase.h:228-253 | it is below the radius exactly if some centre in the whole plane is |
| QuadBase.IsQuadBaseFeature24 | cubiomes/quadbase.h:304-353 | a base exactly if the guards hold and a centre exists, with the least radius |
| QuadBase.WhenGuardsLoseNothing | cubiomes/quadbase.h:317-344 | the sizes for which every four chunks with a centre meet the guards are those without a pair of corners 13 and 9 chunks apart in reach of a block |
| QuadBase.EvenSizes | cubiomes/quadbase.h:317-344 | for sizes even in plan this is an inequality on the size |
| QuadBase.GuardsAreImplied | cubiomes/quadbase.h:317-344 | for those sizes a centre implies all guards |
| QuadBase.IsHutBase | cubiomes/quadbase.h:256-265 | for witch huts a base exactly if a centre exists |
| LostSeed.LostSeed | cubiomes/quadbase.h:266-273 | a seed whose four desert pyramids, taken without size, have a centre and fail the guards |
| LostSeed.TestLostSeed | cubiomes/quadbase.h:266-273 | the test returns no base for that seed |
| QuadScan.LowBitsOnLattice | cubiomes/quadbase.c:623-629 | the rows with wanted low bits are those with the computed remainder |
| QuadScan.RowInverse | cubiomes/quadbase.c:656-661 | constants and computed inverse all invert the row step |
| QuadScan.ListedHits | cubiomes/quadbase.c:625-633 | a hit is in a selected row if and only if narrowing its coordinates moves the seed by a multiple of the power of two |
| QuadScan.MissedHit | cubiomes/quadbase.c:625-633 | for any seed and more than 32 low bits, a region that is a hit and is not listed |
| QuadScan.NoHitMissed | cubiomes/quadbase.c:625-633 | the rows miss no hit of any region if and only if at most 32 low bits are given |
| QuadScan.ScanForQuadBits | cubiomes/quadbase.c:608-647 | the lattice scan lists the first n hits of the full double loop over the rectangle, in its order |
| QuadScan.ScanForQuads | cubiomes/quadbase.c:649-672 | over all low bits before the terminator, the first n hits |
| QuadScan.ExactlyTheHits | cubiomes/quadbase.c:649-672 | the list holds exactly the regions of the rectangle that are hits |
| QuadScan.ListedOnce | cubiomes/quadbase.c:649-672 | for different low bits no region is listed twice |
| QuadScan.MovedQuad | cubiomes/quadbase.c:632-636 | the moved seed has the chunks that the seed itself has at that region |
| QuadScan.ScanFindsHuts | cubiomes/quadbase.h:180-207 | with the hut test, the regions listed are those whose own four huts have a centre and whose moved seed has listed low bits |
| SeedSearch.NoneBetween | cubiomes/quadbase.c:345-353 | stepping through the sorted low bits and to the next step skips no candidate |
| SeedSearch.ReadList | cubiomes/quadbase.c:313-316 | the walk uses the values before the zero, or the zero of an empty list |
| SeedSearch.ListIsValid | cubiomes/quadbase.h:151-152 | ascending values below the step give a usable list, and so does the empty list |
| SeedSearch.WalkLow | cubiomes/quadbase.c:305-355 | a thread overruns its list exactly if its start lies beyond the last value, else it stores its share |
| SeedSearch.WalkAll | cubiomes/quadbase.c:356-385 | without a list a thread stores all passing seeds of its range |
| SeedSearch.Store | cubiomes/quadbase.c:325-342 | blocks of 100 hold the stored seeds in order |
| SeedSearch.SplitLimit | cubiomes/quadbase.c:445-448 | the ranges are exact if and only if there are fewer than 32768 threads |
| SeedSearch.AlignedStarts | cubiomes/quadbase.c:315-316 | thread counts that divide the steps give starts from which the first index is found |
| SeedSearch.ThreeThreadsOverrun | cubiomes/quadbase.c:315-316 | a list and thread count for which a thread runs past the end of the list |
| SeedSearch.Merge | cubiomes/quadbase.c:561-595 | the buffer is the concatenation of all blocks of all threads exactly when the last block's place is an `int` |
| SeedSearch.PrepareRanges | cubiomes/quadbase.c:443-448 | the bounds are computed without overflow exactly below 32768 threads, and join without gap |
| SeedSearch.SearchAll48 | cubiomes/quadbase.c:400-605 | for any number of threads: how the search ends, and that a filled buffer is the list of passing candidates below 2^48 |
| SeedSearch.MergeableForAll | cubiomes/quadbase.c:561-595 | no check makes the merge go wrong if and only if the check that always passes does not |
| SeedSearch.WithoutListMisplaced | cubiomes/quadbase.c:561-595 | without a list that check does, for every number of threads |
| SeedSearch.WithListMergeable | cubiomes/quadbase.c:561-595 | with a list the number of candidates decides, up to one block |
| SeedSearch.FoundExactly | cubiomes/quadbase.h:139-158 | this list is ascending, without repeats, and holds exactly the passing seeds with wanted low bits |
| Workers.RunConserved | src/cpu.cpp:44-72 | in every run each queued candidate is in the queue, in flight or finished, and outputs match |
| Workers.LeftOver | src/cpu.cpp:48-53 | once all threads have left the queue is empty unless something was queued afterwards |
| Workers.AllProcessed | src/cpu.cpp:44-72 | everything is processed exactly once if and only if nothing was queued after the last thread left |
| Workers.StopsLastIsSafe | src/common.h:75-82 | stopping only after the last push loses nothing |
| Workers.EarlyStopLoses | src/common.h:75-82 | a run in which an early stop loses a candidate |
| Workers.ShutdownTerminates | src/cpu.cpp:44-72 | after all stops every step of a thread uses up work |
| Workers.ShutdownProgresses | src/cpu.cpp:44-72 | until all threads have left, one can step |
| Shutdown.Workings | src/main.cpp:310-345 | every run of the program contains a run of its workers, which queues too late exactly when the program does |
| Shutdown.DoneProcessed | src/main.cpp:310-345 | when the program has ended, every candidate was processed exactly once if and only if no batch with a result was queued after the last CPU thread had left |
| Shutdown.ProgramCanLose | src/main.cpp:310-345 | in the order of the program, with any GPU threads and any number of CPU threads, a run ends with a batch in the queue that no thread processes |
| Shutdown.SafeWithoutGpus | src/main.cpp:310-345 | so every run is safe if and only if there is no GPU thread |
| Shutdown.JoiningFirstIsSafe | src/main.cpp:310-345 | with the GPU threads joined before the CPU threads are stopped, every run processes every candidate exactly once |
| SeedBlocks.HandOut | src/gpu.h:12-14 | the blocks that the iterator hands out lie one behind the other, and no seed is in two of them if and only if the counts add up to at most 2^64 |
| SeedBlocks.Contiguous | src/gpu.h:12-14 | every block starts where the blocks before it end |
| SeedBlocks.DisjointUntilWrap | src/gpu.h:12-14 | no seed is handed out twice if and only if the counts add up to at most 2^64 |

## Left out

- BiomeTree.ResultingNode: the shipped tables are not part of this model; containment of boxes and small values are assumed of a table.
- BiomeVolume.GenBiomeNoise3D: the climate noise that supplies the points is a parameter; `genBiomeNoiseChunkSection`, which first looks up a neighbouring cell, is not modelled.
- LayerStack.Generate: coordinates are unbounded integers; wrap-around near the ends of `int` is not modelled.
- LayerStack.Generate: the other unit layers (snow, cool, heat, special, shore, biome, bamboo, edges, swamp river, noise, river, sunflower, deep ocean) are not modelled; they have the shape of those that are.
- LayerStack.Generate: error codes of parents are not modelled, since no layer that is modelled fails.
- LayerStack.CacheSuffices: the two-dimensional Voronoi layers are excluded; they ask for a parent that is wider than their registered edge. Sizes are unbounded.
- LayerRules.CoastIsGame: `mapLand16` and `mapLandB18` are not modelled.
- LayerFilters.MapHills: biome similarity and mutated variants are parameters of the rule instead of tables.
- LayerMix.MapOceanMix: the ocean temperature noise is a parameter, a real number per cell.
- Voronoi.GenBiomeNoiseScaled: only scale 1; the sampled noise is a parameter, and the hash of the seed is any number.
- Voronoi: `mapVoronoiPlane` is not modelled; it offsets its coordinates differently from the three-dimensional access.
- EndBiome.HeightClass: the square root is exact; rounding of `sqrtf` is not modelled.
- EndBiome.MapEndBiome: the simplex noise that places islands is a parameter.
- LargestRectangle.GetLargestRec: what happens after leaving the array is undefined; the model stops with `Overrun`.
- FloodFill.FloodFillGen: the stop flag is not polled, and the rounded centre is replaced by the exact sums.
- BiomeCenters.GetBiomeCenters: components are stated for tolerance 1, since with larger tolerances a fill joins components; what holds for those is stated by `FillScan`.
- FillScan.ReportFills: how the grid is prepared, from stored biomes or by the prefilter of newer versions, is not modelled; any grid is allowed.
- Fortress.PieceEnv.GetFortressPieces: the piece storage grows as needed, as the given size is never read; draws come from any stream of numbers, and seeding the generator is left out.
- Xoroshiro.WordSource.NextInt: the words come from any source; that an acceptable word comes is required, since the loop does not end otherwise.
- QuadBase.IsQuadBaseFeature24: the radius is compared as a square, so rounding of `sqrtf` is not modelled; the tests for other sizes, ranges and radii are left out.
- QuadScan.ScanForQuads: the base test is a parameter, and at most 48 low bits are given.
- QuadScan.ScanFindsHuts: only for regions whose negated coordinates are `int`s; others are looked up at a different region.
- SeedSearch.SearchAll48: output files, resuming and the stop flag are left out; threads share only what they read, so they are run one after the other. Lists are sorted and free of zero, with values below the step. What a search does after undefined arithmetic, after leaving a list or after a misplaced copy is not stated. Running out of memory is not modelled.
- Workers: the relaxed stop flag is sequentially consistent, and waiting is one step.
- Shutdown: the GPU kernels are not part of this model, so a batch may find any candidates; the network threads, the second interrupt and the printed output are left out.
- The floating-point noise, surface heights, biome filters, spawn and stronghold search, and image output are left out.
