# FAST_ATLAS_ULTRA: geometry, packing, durable runs and job safety

A Dafny model of the glyph reconstruction agent and of the code that feeds and guards it. Six parts:

- **Contour geometry.** Marching squares and the graph walk over grid edges (`MarchingSquares`,
  `ContourWalk`, `ContourMask`, `ContourPoints`, `ContourRecovery`); recursive curve fitting
  (`CurveFit`) with its tolerance (`Euclid`, `CurveDeviation`, `CurveTolerance`), its closing (`CurveClosing`,
  `CurveSpike`) and its segment budget (`CurveBudget`); the even-odd rasterizer (`EvenOddFill`),
  winding and areas (`Winding`), the merge of the refinement observations (`AlphaMerge`) and the
  bounded in-place optimizer (`LocalOptimizer`). Coverage, pixels and UPEM points are reals.
- **Packing.** The shelf packer (`ShelfPacking`, `GreedyShelves`), the canvas pagination with its
  measurements and its consumer (`CanvasPagination`, `CanvasCapture`, `CanvasAcceptance`), and
  stacked drawing, cropping and clipped pasting (`CellStack`).
- **Streaming pipeline.** `AtlasCache` gives caches and checkpoints with a crash at any step of a
  write, `FontCache` the three entries of a finished build; `StreamingPipeline` runs the resume, the
  raster pass and the refinement over them, dying after any number of steps or stopped at any check of
  the wall, with its memory in `PipelineState` and what a stop leaves in `GracefulStop`.
- **Raster crawl and gate.** The completeness gate (`RasterPages`, `SizeGroups`) and the bounded
  crawl against an arbitrary server (`SpriteCrawl`).
- **Job runner.** Build, archive and package (`JobBuild`, `JobArchive`), upload, complete, acknowledge
  and report (`JobPublication`, `JobSafety`, `ErrorCodes`) against arbitrary answers, and the lease with its
  heartbeat and liveness fence (`LeaseLiveness`).
- **Metric regression.** The batch plan and least squares through the origin (`MetricsRegression`).

`Outline` holds points, segments and the cell mapping, `Sorting` the stable sort.

Loops and in-place updates of the source are methods, loops and classes here; what they compute is
stated as a function or predicate, and the theorems are lemmas about that. Shapes the numerical
libraries leave open (norm, square root, least-squares inner control points, distance field) are
function parameters: the theorems hold for every choice of them, or for every one that is what its
name says (`Euclid.Euclidean`, `CurveTolerance.LeastSquares`, `MetricsRegression.IsRoot`).

## Where the code and its promises part

- A cell placed on a new shelf loses its own pen offset (`ShelfPacking.OwnPenExactly`,
  `ShelfPacking.NewShelfDropsPen`).
- The segment budget of the curve fit stops splitting but bounds nothing: spans still pending add a
  segment each (`CurveBudget.ExceededExactly`), and for every budget of two or more there are polygons
  with any number of segments (`CurveBudget.BudgetIsNoBound`), 76 vertices being enough to exceed the
  default of 32 (`CurveBudget.DefaultBudgetIsExceeded`).
- The fit closes for every polygon exactly when its tolerance is at least 1e-6 or its budget at most
  one (`CurveSpike.ClosesExactly`); `CurveSpike.Spike` does not close otherwise. And a polygon whose
  anchor and opposite vertex are closer than 1e-6 loses its whole outline, with residual 0
  (`CurveClosing.ShortAnchorLosesAll`).
- A contour point can stand on a sample when the sample equals the iso level, and points then do not
  count like crossed grid edges (`ContourPoints.OnLevelMiscounts`): the parity of the points to its left
  tells whether a sample is ink exactly when an even number of such points is involved
  (`ContourPoints.ParityExactly`). The mask is still determined by the points
  (`ContourRecovery.SameLoopsSameMask`).
- The last mask column of a closed outline is never filled, up to edges dropped as flat
  (`EvenOddFill.LastColumnEmptyExactly`).
- A uniform glyph loses coverage in the first column under a shifted observation
  (`AlphaMerge.UniformSurvivesExactly`).
- Nothing clips a glyph to its band of the stacked canvas (`CellStack.PixelSurvivesExactly`).
- A first canvas cell taller than the page less both gaps leaves an empty page, and the gate refuses
  the set (`CanvasAcceptance.CanvasGroupIsFine`, `CanvasAcceptance.TallFirstCellIsRefused`); a blank
  U+0020 in front does so at every size from 2039 (`CanvasAcceptance.BlankFirstIsRefused`).
- An unverified write over an entry whose sidecar belongs to other contents is a miss until the
  next verified write (`AtlasCache.UnverifiedReads`).
- The font cache is written in three steps under one identity, and a build that dies between them can
  be served mixed with the one before (`FontCache.NeverMixesExactly`).
- The notes in agent/src/atlas/cache.py (lines 14 and 190) say that a graceful shutdown checkpoints; the
  code raises without saving (agent/src/atlas/pipeline.py, lines 191 to 195). A stop leaves the state on
  disk exactly when nothing froze, failed fast or was repaired since the last save
  (`StreamingPipeline.StoppedRun`), and `StreamingPipeline.ShutdownForgetsAGlyph` is a run whose frozen
  glyph is lost. Only work is lost, and at most one batch of it (`StreamingPipeline.DieAndResume`).
- The reported low-confidence list repeats entries after a resume
  (`StreamingPipeline.LowRepeatsExactly`, `StreamingPipeline.DoubtIsReportedTwice`).
- Archiving is not all-or-nothing: the job wall is looked at again only after the archive loop
  (`JobArchive.FailedGatedJobArchives`, `JobArchive.ArchivedPastTheWall`), and a write that fails
  leaves the ones before it (`JobArchive.AllOrNothingExactly`).
- A job can be reported failed after a confirmed completion (`JobSafety.FailsAfterCompletionExactly`,
  `JobSafety.FailedAfterCompletion`).
- The settings validator accepts settings under which the liveness fence is not sound
  (`LeaseLiveness.SafeExactly`, `LeaseLiveness.DefaultsExactly`).

## Model

| member | source | states |
|---|---|---|
| `Outline.MappingRoundTrip` | agent/src/atlas/models.py:45-57 | pixel to UPEM and back, and UPEM to pixel and back, are both the identity for every cell of non-zero size |
| `Outline.EvaluateEnds` | agent/src/reconstruction/models.py:68-78 | a segment starts and ends exactly on its end points |
| `MarchingSquares.CellPairsExact` | agent/src/atlas/geometry.py:123-157 | in all sixteen cases and both saddle resolutions a cell edge gets exactly one segment end when its corners differ, none otherwise |
| `MarchingSquares.PairSaddle` | agent/src/atlas/geometry.py:134-153 | a saddle is cut so that the corner cut off lies on the other side of the iso level than the cell average |
| `MarchingSquares.SaddleByMean` | agent/src/atlas/geometry.py:134-153 | corner by corner: a saddle is cut at the two corners whose side its four samples, added up against four times the level, do not take |
| `MarchingSquares.CrossingIsOnIso` | agent/src/atlas/geometry.py:106-117 | the vertex on a changing grid edge interpolates exactly to the iso level, clipping never moves it; where the two samples differ by less than 1e-12 it is the midpoint, less than 1e-12 off the level |
| `MarchingSquares.CrossingIsInside` | agent/src/atlas/geometry.py:106-117 | when neither sample is on the level the vertex is strictly between them |
| `MarchingSquares.ExtractSegments` | agent/src/atlas/geometry.py:84-157 | over the whole grid every changing edge of every cell gets exactly one segment end of that cell; each segment joins two changing edges of its cell at the shared vertices, saddles resolved by the cell average |
| `ContourWalk.BuildEdgeMap` | agent/src/atlas/geometry.py:159-164 | the edge map lists for every grid edge exactly the segments that end on it |
| `ContourWalk.NextUnused` | agent/src/atlas/geometry.py:179-184 | the first unused segment on the edge in segment order, or none exactly when all of them are used |
| `ContourWalk.WalkFrom` | agent/src/atlas/geometry.py:168-195 | a walk consumes a chain of fresh segments; it reports closed only back on its first edge, and otherwise (below the guard) is stuck on an edge with no unused segment |
| `ContourWalk.ClosedIsRegular` | agent/src/atlas/geometry.py:159-199 | a closed walk is a whole closed component: every end of its segments is shared inside it |
| `ContourWalk.StuckIsOffCycle` | agent/src/atlas/geometry.py:185-186 | a segment of a walk that got stuck lies on no cycle at all, so dropping it loses no loop |
| `ContourWalk.TraceLoops` | agent/src/atlas/geometry.py:166-199 | the loops are an exact cycle decomposition: closed, pairwise without a common segment, none longer than 10,000,000 steps, and with no more segments than that covering every one that lies on a cycle; each repeats its first vertex last and has at least three |
| `ContourMask.TracedIsAtMostTwo` | agent/src/atlas/geometry.py:80-81 | no grid edge of a traced coverage grid carries more than two segment ends and none is degenerate |
| `ContourMask.MarchingSquaresContours` | agent/src/atlas/geometry.py:70-199 | the contours of any rectangular coverage are the cycle decomposition of its traced segments; of a bordered one of at most five million cells no segment is lost |
| `ContourMask.NoSegmentLost` | agent/src/atlas/geometry.py:166-199 | with a background border and below the step guard, every segment lies on exactly one returned loop |
| `ContourMask.SmallGridLosesNothing` | agent/src/atlas/geometry.py:70-199 | a traced grid has at most two segments for each cell, so a bordered one of at most five million cells never meets the step guard, and each of its segments lies on exactly one returned loop |
| `ContourMask.DoorsAreChanges` | agent/src/atlas/geometry.py:97-199 | the loops cross a grid edge exactly when its two samples lie on different sides of the iso level |
| `ContourMask.DoorCount` | agent/src/atlas/geometry.py:97-199 | and they cross each such edge exactly once |
| `ContourMask.ContoursDetermineInk` | agent/src/atlas/geometry.py:97-199 | a sample is ink exactly when an odd number of horizontal grid edges of its row to its left are crossed by the loops |
| `ContourMask.SameContoursSameMask` | agent/src/atlas/geometry.py:97-199 | two bordered grids whose loops cross the same grid edges have the same thresholded mask |
| `ContourPoints.VerticesDetermineInk` | agent/src/atlas/geometry.py:97-199 | the special case without a sample on the level: a sample is ink exactly when an odd number of points of the returned loops lies left of it on its row |
| `ContourPoints.VertexCountExactly` | agent/src/atlas/geometry.py:97-199 | the returned points left of a sample on its row are the crossed edges there and the vertices that stand on samples there, less the one standing on the sample itself |
| `ContourPoints.ParityExactly` | agent/src/atlas/geometry.py:106-199 | for every bordered grid the parity of the points to its left tells whether a sample is ink exactly when an even number of vertices stands on samples left of it or, from the left, on it; a vertex stands on a sample that equals the iso level next to one at least 1e-12 above it |
| `ContourRecovery.SameLoopsSameMask` | agent/src/atlas/geometry.py:97-199 | two bordered grids of one size whose returned loops have the same points, in any order, have the same thresholded mask, samples on the iso level included |
| `ContourPoints.OnLevelMiscounts` | agent/src/atlas/geometry.py:106-117 | the input for which the parity fails: a concrete grid has a point on the row of a vertical edge's end, and a sample without ink has exactly one point to its left |
| `EvenOddFill.RowRange` | agent/src/atlas/geometry.py:514-520 | the row range computed for an edge is exactly the rows whose centre it straddles under the half-open rule |
| `EvenOddFill.AddEdge` | agent/src/atlas/geometry.py:508-527 | one edge adds exactly its crossings, at their clipped columns, to the counting grid |
| `EvenOddFill.RasterizeSegmentsMask` | agent/src/atlas/geometry.py:489-534 | a mask pixel left of the last column is set exactly when an odd number of edges crosses its row centre left of its right border; in any column, when the number of crossings with clipped column at most its own is odd |
| `EvenOddFill.ColumnHoldsCrossing` | agent/src/atlas/geometry.py:528-532 | an edge counted on a row is counted in the pixel that holds the point where its line meets the row centre |
| `EvenOddFill.FilledExactly` | agent/src/atlas/geometry.py:508-534 | clipped columns and running sums agree, left of the last column, with comparing each edge with the pixel border by the products of the slopes |
| `EvenOddFill.ClosedChainCrossesEvenly` | agent/src/atlas/geometry.py:502-527 | any closed outline straddles every row centre an even number of times |
| `EvenOddFill.LastColumnEmptyExactly` | agent/src/atlas/geometry.py:511-531 | the last mask column of a closed outline is empty, exactly unless an odd number of straddling edges was dropped as flat |
| `EvenOddFill.FillIsXor` | agent/src/atlas/geometry.py:528-534 | the mask of several contours is the exclusive or of their own masks |
| `EvenOddFill.FillIgnoresContourOrder` | agent/src/atlas/geometry.py:502-534 | permuting the contours does not change the mask |
| `CurveFit.FarthestIsMax` | agent/src/atlas/geometry.py:447-451 | the split sample is farthest from the chord over the whole span |
| `CurveFit.Fitter.Span` | agent/src/atlas/geometry.py:428-458 | the recursive splitter appends exactly the segments of the span's pieces and raises the residual to their worst |
| `CurveFit.PiecesTile` | agent/src/atlas/geometry.py:428-458 | the pieces of a span follow one another from its first to its last vertex without gap or overlap |
| `CurveFit.NoSplitAtBudget` | agent/src/atlas/geometry.py:446 | once all but one segment of the budget are emitted no span splits any more |
| `CurveFit.WorstBounds` | agent/src/atlas/geometry.py:440-445 | the reported residual bounds the residual of every emitted piece |
| `Euclid.NoZigzag` | agent/src/atlas/geometry.py:371-377 | no cubic falls, rises, falls and rises again at increasing parameters |
| `CurveDeviation.CubicMisses` | agent/src/atlas/geometry.py:358-390 | the deviation computed for a cubic bounds its miss at every vertex of the slice, at a chord-length parameter between 0 and 1 |
| `CurveDeviation.AlternatingDefeats` | agent/src/atlas/geometry.py:358-390 | over a slice with five vertices alternating about a level by more than the tolerance, the deviation exceeds the tolerance whatever the solver returns |
| `CurveTolerance.DistanceIsReached` | agent/src/atlas/geometry.py:468-474 | the point-line distance is the Euclidean distance to a point of the line |
| `CurveTolerance.ResidualIsHonest` | agent/src/atlas/geometry.py:430-453 | at any budget every vertex of an emitted span is within the reported worst residual of its segment, up to the 1e-9 below which a span counts as having no length |
| `CurveTolerance.ResidualIsAttained` | agent/src/atlas/geometry.py:393-465 | the residual of a polygon is 0 or what one of its vertices misses its segment by |
| `CurveTolerance.TwoEdgesFit` | agent/src/atlas/geometry.py:378-389 | over two edges a least-squares cubic misses nothing, so the exemption of short spans costs no accuracy |
| `CurveTolerance.PiecesWithinTolerance` | agent/src/atlas/geometry.py:430-454 | with a least-squares solver, every vertex of a span emitted with more than the last segment of the budget left is within the tolerance of its segment |
| `CurveTolerance.PolygonResidualIsHonest` | agent/src/atlas/geometry.py:393-465 | for a tolerance of at least 1e-6 or a budget of at most one, and a fit that is not empty, the returned residual bounds the distance of every vertex of the polygon to the nearest returned segment, up to 1e-9 |
| `CurveTolerance.PolygonWithinTolerance` | agent/src/atlas/geometry.py:393-465 | with a least-squares solver and a tolerance of at least 1e-6, a fit that is not empty and has fewer segments than the budget is within the tolerance of every vertex of the polygon |
| `CurveFit.FitPolyline` | agent/src/atlas/geometry.py:393-465 | a polygon of fewer than three points gives nothing and an infinite residual; any other gives the two half loops from the anchor and back, and their worst residual |
| `CurveFit.OpenedAtFarthest` | agent/src/atlas/geometry.py:413-415 | the loop is opened at the first vertex of greatest distance from the centroid and keeps its order |
| `CurveFit.FittedFromFarthest` | agent/src/atlas/geometry.py:413-465 | the fitted outline starts and ends at that vertex unless its first or last span is skipped |
| `CurveClosing.RunsCloseExactly` | agent/src/atlas/geometry.py:428-486 | tiling pieces become segments that chain from the first to the last vertex exactly when every run of skipped pieces returns to the point it left |
| `CurveClosing.FittedLoopCloses` | agent/src/atlas/geometry.py:393-465 | the fitted segments are at most one per vertex, and chain from the anchor back to it exactly when every run of skipped pieces around the loop closes |
| `CurveClosing.SeparatedLoopCloses` | agent/src/atlas/geometry.py:405-465 | they do for every polygon whose vertices closer than 1e-6 coincide |
| `CurveClosing.SplitChords` | agent/src/atlas/geometry.py:436-458 | with a tolerance of at least 1e-6 both parts of a split span have chords of at least 1e-6 |
| `CurveClosing.EmptyExactly` | agent/src/atlas/geometry.py:436-465 | hence with such a tolerance nothing is skipped, except that the whole outline is dropped exactly when the anchor and the opposite vertex are closer than 1e-6 |
| `CurveClosing.ShortAnchorLosesAll` | agent/src/atlas/geometry.py:436-438 | at any tolerance and any budget of at least one, a polygon with such an anchor gives no segment and residual 0 |
| `CurveClosing.CoarseCloses` | agent/src/atlas/geometry.py:405-465 | with such a tolerance, or a budget of at most one, the fit of every polygon returns to its anchor |
| `CurveSpike.SpikeDoesNotClose` | agent/src/atlas/geometry.py:436-438 | for any finer tolerance and any budget above one, a polygon of twelve vertices whose fit does not chain from its anchor back to it, whatever the solver returns |
| `CurveSpike.ClosesExactly` | agent/src/atlas/geometry.py:405-465 | every polygon's fit closes exactly when the tolerance is at least 1e-6 or the budget at most one |
| `CurveBudget.PendingCount` | agent/src/atlas/geometry.py:428-458 | per span: the segments emitted up to its end, from the spans still to be fitted when all but one segment of the budget are out |
| `CurveBudget.SegmentCount` | agent/src/atlas/geometry.py:393-465 | the exact number of returned segments: below the budget without pending spans, otherwise one per pending span on top of the budget less one, but for short ones in front |
| `CurveBudget.ExceededExactly` | agent/src/atlas/geometry.py:402-465 | the budget is exceeded exactly when at least two pending spans are fitted, by one less than their number |
| `CurveBudget.BudgetIsNotFelt` | agent/src/atlas/geometry.py:393-465 | a polygon with at most as many vertices, or unbudgeted pieces, as the budget has segments is fitted within it and as if there were none |
| `CurveBudget.CombSplits` | agent/src/atlas/geometry.py:449-458 | in a zigzag polygon every span from the anchor splits off its last edge before any segment is out |
| `CurveBudget.BudgetIsNoBound` | agent/src/atlas/geometry.py:402-465 | so for every budget of two or more and every number m some polygon is fitted by at least m segments |
| `CurveBudget.DefaultBudgetIsExceeded` | agent/src/atlas/geometry.py:30 | a polygon of 76 vertices exceeds the default budget of 32 |
| `CurveBudget.SmallBudget` | agent/src/atlas/geometry.py:446-465 | a budget of at most one gives at most two segments |
| `Winding.AreaUnderMap` | agent/src/atlas/models.py:45-50 | the pixel-to-UPEM mapping multiplies shoelace area by minus the squared scale |
| `Winding.AreaReversed` | agent/src/atlas/geometry.py:206-210 | reversing a polygon negates its area |
| `Winding.ReverseKeepsChain` | agent/src/atlas/geometry.py:761-764 | reversing a closed chain keeps it closed and undoes itself |
| `Winding.EvaluateMirrored` | agent/src/atlas/geometry.py:761-764 | a reversed cubic runs through the same points backwards |
| `Winding.OutlineAreaIsSum` | agent/src/atlas/geometry.py:629-643 | the sampled area of a closed outline is the sum over its segments |
| `Winding.OutlineReversed` | agent/src/atlas/geometry.py:629-643 | reversing a closed outline negates its sampled area |
| `Winding.PolygonIsWound` | agent/src/atlas/geometry.py:712-718 | the sign test is right for the polygon it looks at: reversing when it says so would give the demanded winding, exactly for a polygon with area |
| `Winding.OutlineIsWound` | agent/src/atlas/geometry.py:712-718 | the oriented segments stay a closed chain and are wound as demanded exactly when the fit kept the sign of the polygon's area |
| `Winding.EdgeLinesAreWound` | agent/src/atlas/geometry.py:712-718 | an outline of one line per polygon edge has the polygon's area and comes out wound as demanded exactly when that is not zero |
| `LocalOptimizer.NudgeNode` | agent/src/atlas/refine.py:153-173 | one visit leaves lines alone and moves only the inner control points of a cubic, by the nudge |
| `LocalOptimizer.NudgeFollowsGradient` | agent/src/atlas/refine.py:155-173 | a nudge goes against the gradient of the distance field where the field is positive and along it elsewhere, 0.75 px times its share of the norm on each axis |
| `LocalOptimizer.IndexIsNearest` | agent/src/atlas/refine.py:155-160 | the gradient is read at the pixel nearest to the point |
| `LocalOptimizer.NudgesAreBounded` | agent/src/atlas/refine.py:141-175 | n passes move a control point at most 0.75 n px per axis, whatever the distance field is |
| `LocalOptimizer.WholeRunIsBounded` | agent/src/atlas/refine.py:46-47 | over a whole run no control point moves more than 18 px per axis |
| `LocalOptimizer.FixpointStays` | agent/src/atlas/refine.py:174-176 | a point that a pass leaves alone is left alone by all later ones, so stopping early changes nothing |
| `LocalOptimizer.BoundedLocalOptimizer` | agent/src/atlas/refine.py:125-178 | the run equals 24 passes: all end points and kinds keep their value, inner points are where 24 nudges put them |
| `AlphaMerge.MergeAlphaObservations` | agent/src/atlas/refine.py:73-109 | accumulating and dividing in place gives at every sample the weighted mean of the observations that count |
| `AlphaMerge.MergedWeighs` | agent/src/atlas/refine.py:73-109 | without division: the base counts half, the shifted sample with its left neighbour and the two-by-two block of the double observation a quarter each, in all four combinations |
| `AlphaMerge.MergedIsBetween` | agent/src/atlas/refine.py:85-109 | samples between two bounds merge to one between them |
| `AlphaMerge.UniformSurvivesExactly` | agent/src/atlas/refine.py:92-98 | a uniform glyph keeps its coverage exactly away from the first column or without a shifted observation |
| `AlphaMerge.MisfitIsAbsent` | agent/src/atlas/refine.py:90-107 | an observation of the wrong shape changes nothing |
| `ShelfPacking.CellDimensions` | agent/src/atlas/paging.py:37-59 | an accepted cell is within the canvas cap and holds the advance, the left extent and both horizontal pads, and the ink column and both vertical pads, to within 1/10000 px and without a spare pixel; right of pen and advance there are more than 127.49 px |
| `ShelfPacking.Packer.Add` | agent/src/atlas/paging.py:128-188 | one step of the packer takes its cursors to the specified next state |
| `ShelfPacking.PlanAtlasPages` | agent/src/atlas/paging.py:79-199 | the loop computes the specified plan or its error |
| `ShelfPacking.PlanFailsExactly` | agent/src/atlas/paging.py:92-99 | planning fails exactly on an invalid budget or a single cell over the hard budget; the final defensive check never fires |
| `ShelfPacking.PlanIsSound` | agent/src/atlas/paging.py:101-199 | for positive cells under the cap: pages numbered from 0, no two cells overlap, every cell inside its page, byte and dimension caps kept, every input placed exactly once |
| `ShelfPacking.CellsShareNoPixel` | agent/src/atlas/paging.py:101-199 | pixel by pixel: a pixel of a page belongs to at most one cell, and a pixel of a cell to its page |
| `ShelfPacking.TallerFirst` | agent/src/atlas/paging.py:120-128 | over all pages taller cells come first, and of equally tall ones the smaller code point |
| `GreedyShelves.PlanIsGreedy` | agent/src/atlas/paging.py:131-188 | judged from the placed cells alone, every cell stands right of its predecessor if the page then fits, else under everything at the left border if that fits the caps and the target, and a page is left only when the next cell has no place on it; pages are no larger than their cells |
| `ShelfPacking.PlanWithinBudget` | agent/src/atlas/paging.py:190-198 | every page of a plan keeps the hard byte budget |
| `ShelfPacking.PlanIgnoresOrder` | agent/src/atlas/paging.py:101-103 | with distinct code points the plan does not depend on the input order |
| `ShelfPacking.OwnPenExactly` | agent/src/atlas/paging.py:128-175 | a cell keeps its own pen offset exactly when, after the cells before it, it did not fit the open shelf only below it, or its left extent rounds to nothing; the cells that did are those at the left border below the top |
| `ShelfPacking.NewShelfDropsPen` | agent/src/atlas/paging.py:158-166 | two concrete cells of which the second, a mark with offset 428, is drawn with 128 |
| `Sorting.SortIgnoresOrder` | agent/src/atlas/paging.py:101 | sorting by a key without ties forgets the input order |
| `CellStack.Batches` | agent/src/atlas/transport.py:851-866 | batches concatenate to the request in order; each is one cell or fits the canvas, and is closed only when the next cell would not fit |
| `CellStack.BandsInOrder` | agent/src/atlas/transport.py:880-894 | the bands of a batch do not overlap |
| `CellStack.DrawTops` | agent/src/atlas/transport.py:880-894 | each cell is drawn at the top of its own band |
| `CellStack.DrawBatch` | agent/src/atlas/transport.py:474-492 | a canvas pixel is all glyphs of the batch drawn over black, in order |
| `CellStack.CropBatch` | agent/src/atlas/transport.py:906-916 | each crop shows exactly the cell's own band of whatever image came back, black outside it; cropping raises exactly when a band starts below the image |
| `CellStack.PixelSurvivesExactly` | agent/src/atlas/transport.py:474-492 | a canvas pixel shows one cell's ink exactly when that ink is full or no other cell of the batch spilled on it |
| `CellStack.StackCropIdentity` | agent/src/atlas/transport.py:869-917 | when glyphs stay between the top and bottom of their cells, cropping the drawn batch returns each glyph's own ink |
| `CellStack.PasteClipped` | agent/src/atlas/transport.py:973-982 | clipped pasting equals its pointwise definition for every offset, negative and overflowing ones included |
| `RasterPages.CompletePermutes` | agent/src/acquisition/models.py:249-369 | acceptance does not depend on the order of the pages |
| `RasterPages.CheckPage` | agent/src/acquisition/models.py:260-326 | one page passes exactly when its PNG, MD5, size, glyph count and every glyph box are in order |
| `RasterPages.ReadPages` | agent/src/acquisition/models.py:256-328 | the pages are grouped by size, in order, exactly when all pass and share one MD5 |
| `RasterPages.SortedCounts` | agent/src/acquisition/models.py:339-342 | sorted indices read 1..k exactly when each of them is present |
| `RasterPages.UnseenIsDistinct` | agent/src/acquisition/models.py:359-367 | the running set of seen code points finds no repeat exactly when no code point occurs twice in the size |
| `RasterPages.CheckGroup` | agent/src/acquisition/models.py:337-367 | one size passes exactly when it has pages 1..k, live pages before a terminal last one, some glyph, and no code point twice |
| `RasterPages.IsCompleteRasterPages` | agent/src/acquisition/models.py:243-369 | the gate accepts exactly the declaratively complete page sets |
| `SizeGroups.FlatIsComplete` | agent/src/acquisition/models.py:330-369 | one run of pages per size is accepted exactly when no size repeats and each run is good |
| `SpriteCrawl.ParsePage` | agent/src/acquisition/adapters.py:292-413 | a response becomes a page exactly when it is usable; the page is terminal exactly for an empty layout |
| `SpriteCrawl.FetchSpritePage` | agent/src/acquisition/adapters.py:415-451 | an answered page carries its own number and size |
| `SpriteCrawl.FetchSize` | agent/src/acquisition/adapters.py:476-496 | the crawl of a size stops for the budget, at an empty page or at a page it cannot get, and returns exactly the pages before |
| `SpriteCrawl.StoppedIsFine` | agent/src/acquisition/adapters.py:476-508 | what was crawled for a size passes the gate exactly when the run is complete |
| `SpriteCrawl.RunIsUnique` | agent/src/acquisition/adapters.py:479-488 | a crawl of a size with a complete run stops exactly at its end |
| `SpriteCrawl.FetchAllSpritePages` | agent/src/acquisition/adapters.py:453-508 | pages come back exactly when the request is valid, no size repeats and every size has non-empty pages 1..k-1 and the empty page k, 2 <= k <= budget, with all page checks passing; they are all these runs in request order |
| `CanvasPagination.PlaceKeeps` | agent/src/acquisition/adapters.py:989-1044 | placing a glyph at the cursor keeps all cells of the page apart by the gap and behind the cursor |
| `CanvasPagination.TidyMeans` | agent/src/acquisition/adapters.py:972-1051 | in pixels: two cells of a page are five apart in a row or in a column, and end by 2043 unless they start at the border |
| `CanvasPagination.Paginate` | agent/src/acquisition/adapters.py:977-1057 | pages 1..k with only the last final, every glyph drawn once in order, cells of a page pairwise apart; each glyph stands where the row rule puts it and a page is left only for a glyph without room; only the first page can be empty, exactly when the first glyph did not fit |
| `CanvasCapture.Classify` | agent/src/acquisition/adapters.py:887-971 | proven are exactly U+0020 and the candidates with ink that no fallback font draws, each with its ink box, or without ink its advance and size; the others are rejected |
| `CanvasCapture.ProvenIsMeasured` | agent/src/acquisition/adapters.py:937-970 | measuring gives every proven cell a positive size, no repetition, and an inkless cell for U+0020 only |
| `CanvasCapture.CaptureSize` | agent/src/acquisition/adapters.py:1491-1604 | the consumer accepts one size exactly when sets, numbering, boxes and the one-time use of every code point are in order |
| `CanvasAcceptance.CapturedIsSmall` | agent/src/acquisition/adapters.py:1570-1577 | paginated cells pass the capture's box check exactly when each is at most 2043 px both ways |
| `CanvasAcceptance.CanvasGroupIsFine` | agent/src/acquisition/adapters.py:977-1057 | a paginated size passes the gate exactly when its first glyph fits the first page, every cell is at most 2043 px, and size, MD5 and code points are valid |
| `CanvasAcceptance.CaptureRasterPages` | agent/src/acquisition/adapters.py:1380-1607 | for arbitrary evaluator output: accepted exactly when every size is captured and the whole set passes the gate |
| `CanvasAcceptance.EvaluatedIsAccepted` | agent/src/acquisition/adapters.py:1379-1607 | what the evaluator draws is accepted exactly for acceptable requests |
| `CanvasAcceptance.Capture` | agent/src/acquisition/adapters.py:1262-1607 | end to end, measuring, paginating, checking and the gate succeed exactly for acceptable requests |
| `CanvasAcceptance.RoomIsEnough` | agent/src/acquisition/adapters.py:991-997 | glyphs whose width and height plus 10 fit the page are always placeable |
| `CanvasAcceptance.TallFirstCellIsRefused` | agent/src/acquisition/adapters.py:997-1014 | a first glyph of height 2039 leaves an empty first page, and the set is refused |
| `CanvasAcceptance.BlankFirstIsRefused` | agent/src/acquisition/adapters.py:937-1014 | a blank U+0020 as first candidate fits exactly up to size 2038, or 2033 with an advance over 2038; one requested size of 2039 or more makes the capture fail |
| `AtlasCache.AtlasCacheStore.PutBytes` | agent/src/atlas/cache.py:68-73 | an unverified write leaves old files, or old files and a temporary, or the new entry, depending on where it died |
| `AtlasCache.AtlasCacheStore.PutBytesVerified` | agent/src/atlas/cache.py:93-97 | a verified write adds the sidecar last; a death inside it leaves a prefix of the digest |
| `AtlasCache.AtlasCacheStore.GetBytes` | agent/src/atlas/cache.py:75-91 | a read returns the stored body unless a sidecar contradicts it |
| `AtlasCache.AtlasCacheStore.GetJson` | agent/src/atlas/cache.py:106-118 | a JSON read returns the payload only under its own identity |
| `AtlasCache.WriteReads` | agent/src/atlas/cache.py:75-97 | exactly what is read after a verified write that died at any step, on any disk |
| `AtlasCache.WriteIsCrashConsistent` | agent/src/atlas/cache.py:68-97 | that is the old value, the new value or a miss |
| `AtlasCache.WriteKeepsOthers` | agent/src/atlas/cache.py:61-73 | other keys read as before |
| `AtlasCache.OverwriteWindow` | agent/src/atlas/cache.py:93-97 | dying between body and sidecar of an overwrite loses the entry and never mixes old and new |
| `AtlasCache.DamageIsAMiss` | agent/src/atlas/cache.py:84-90 | under a completed sidecar any later damage to the body reads as the value or a miss |
| `AtlasCache.UnverifiedReads` | agent/src/atlas/cache.py:68-91 | an unverified write is read back exactly when no sidecar contradicts it, otherwise it is a miss |
| `AtlasCache.RunReadsRecent` | agent/src/atlas/cache.py:68-97 | from any disk, over any run of writes and deaths, a read is a miss, or a value written since the last completed write of its key, or while none has completed what was there before |
| `AtlasCache.RecentExactly` | agent/src/atlas/cache.py:68-97 | such a value is one whose write no completed write of the key follows |
| `AtlasCache.CompletedReadsPlain` | agent/src/atlas/cache.py:68-97 | a key whose last write completed reads as a plain map would |
| `AtlasCache.JsonIsAtomic` | agent/src/atlas/cache.py:101-118 | a JSON write is atomic: old or new payload |
| `AtlasCache.ForeignDocumentIsAMiss` | agent/src/atlas/cache.py:115-117 | a document with another identity is a miss |
| `AtlasCache.AtlasCheckpointStore.Save` | agent/src/atlas/cache.py:149-160 | the checkpoint file changes in one step, from the old to the new canonical contents |
| `AtlasCache.AtlasCheckpointStore.Load` | agent/src/atlas/cache.py:162-184 | a checkpoint loads only under its identity; missing and unreadable files start fresh, bytes that are not UTF-8 raise |
| `AtlasCache.CheckpointRoundTrip` | agent/src/atlas/cache.py:132-184 | a saved checkpoint loads with the same counts and code points, and only under its identity |
| `AtlasCache.CanonicalIgnoresOrder` | agent/src/atlas/cache.py:132-137 | the same code points in any order are the same file |
| `FontCache.Remember` | agent/src/atlas/transport.py:1376-1383 | the disk after remembering two fonts and a report, dead in any of the three writes |
| `FontCache.RememberedIsServed` | agent/src/atlas/transport.py:1376-1383 | a build remembered to the end is in its three entries and is served whole |
| `FontCache.Probe` | agent/src/atlas/transport.py:1277-1283 | the probe serves all three parts or nothing |
| `FontCache.FirstBuildIsWhole` | agent/src/atlas/transport.py:1277-1383 | a build remembered where no report was is served whole or not at all, wherever it died |
| `FontCache.NeverMixesExactly` | agent/src/atlas/transport.py:1277-1383 | a build remembered over another is never served mixed with it, wherever it dies, exactly when at least two of the three parts are the same in both |
| `StreamingPipeline.AtlasUltraPipeline.SaveCheckpoint` | agent/src/atlas/pipeline.py:197-199 | a save leaves a true checkpoint whose easy glyphs are all cached |
| `StreamingPipeline.AtlasUltraPipeline.Resume` | agent/src/atlas/pipeline.py:541-568 | a code point is frozen again exactly when the loaded checkpoint lists it and its cached model decodes, with that model; all saved failures and the saved low-confidence list come back |
| `StreamingPipeline.AtlasUltraPipeline.Pending` | agent/src/atlas/pipeline.py:245 | pending are exactly the regressed code points neither frozen nor failed, each once |
| `StreamingPipeline.AtlasUltraPipeline.RasterCell` | agent/src/atlas/pipeline.py:321-384 | one cell ends in exactly one of frozen, failed and excluded, and the state, the file and the batch counter change as its outcome says; a death at any step leaves a true disk, a stop leaves everything as it was |
| `StreamingPipeline.AtlasUltraPipeline.RasterPage` | agent/src/atlas/pipeline.py:296-388 | one page handles exactly its cells; alive, it ends with the checkpoint file holding the present state; stopped before a cell, the file holds it exactly when no cell since the last save froze or failed fast, if anything was saved, and is untouched otherwise |
| `StreamingPipeline.AtlasUltraPipeline.RasterPass` | agent/src/atlas/pipeline.py:230-392 | after the pass every code point is frozen, failed or excluded, each pending one rasterised once and no other |
| `StreamingPipeline.AtlasUltraPipeline.Refinement` | agent/src/atlas/pipeline.py:409-501 | refinement freezes exactly the repaired glyphs, keeps the others as failed, appends the low-confidence ones, and alive ends with the checkpoint file holding the present state; stopped, it has saved nothing |
| `StreamingPipeline.AtlasUltraPipeline.Run` | agent/src/atlas/pipeline.py:532-609 | a run that is not cut short keeps the blank U+0020, excludes every other blank glyph, gives exactly the expected frozen models, failed and excluded sets, rasterises exactly the code points the old disk did not settle, and leaves every easy one on disk; a run cut short anywhere keeps the disk true, loses nothing stored and at most a batch of easy glyphs; one the wall stops has looked at it an exact number of times for the place where it stops; enough steps and looks always suffice |
| `StreamingPipeline.EachGlyph` | agent/src/atlas/pipeline.py:348-384 | glyph by glyph: a blank one is excluded unless it is U+0020, any other that passes is frozen with its own model, and one that does not pass is refined or fails |
| `GracefulStop.UnsavedEmptyExactly` | agent/src/atlas/pipeline.py:317-381 | of the cells a page has done nothing is unsaved exactly when none froze or failed fast after the last full batch, or after the start of the page |
| `StreamingPipeline.StoppedRun` | agent/src/atlas/pipeline.py:191-199 | any run from any disk that the deadline or a graceful shutdown stops, at whichever check: once it has saved, or resumed a file in step, the file holds the present state exactly when nothing was added since: always at a page and between stages, at a cell if no cell since the last save froze or failed fast, in refinement if nothing was repaired; before that the file is untouched |
| `StreamingPipeline.ShutdownForgetsAGlyph` | agent/src/atlas/pipeline.py:294-388 | a run on an empty disk, one page of two easy glyphs and a batch of 32, stopped at the check of the second: one glyph is frozen and there is no checkpoint |
| `StreamingPipeline.CrashAndResume` | agent/src/atlas/pipeline.py:540-609 | after any number of deaths at any step or stops at any check, with any cache damage between them, a run left alone gives the same glyphs, failures, exclusions and low-confidence set as one on an empty disk |
| `StreamingPipeline.WarmIsOnDisk` | agent/src/atlas/pipeline.py:541-568 | on an undamaged disk every easy glyph of the saved checkpoint is resumed, so no run rasterises it again |
| `StreamingPipeline.DieAndResume` | agent/src/atlas/pipeline.py:350-388 | a run that dies or is stopped anywhere and the one after it rasterise at most one checkpoint batch of easy glyphs twice |
| `StreamingPipeline.FinalSetsPartition` | agent/src/atlas/pipeline.py:317-384 | the three final sets partition the requested code points |
| `StreamingPipeline.FinishedRunsAgree` | agent/src/atlas/pipeline.py:540-609 | any two finished runs agree, models included |
| `StreamingPipeline.LowRepeatsExactly` | agent/src/atlas/pipeline.py:543 | the reported low-confidence list has repetitions exactly when some were resumed |
| `StreamingPipeline.DoubtIsReportedTwice` | agent/src/atlas/pipeline.py:480-543 | two runs on a disk with one doubtful glyph: the first reports it once, the second twice |
| `StreamingPipeline.DamageKeepsDisk` | agent/src/atlas/pipeline.py:548-567 | losing or spoiling cache entries never makes the disk untrue |
| `JobBuild.JobBuilder.ResolvePair` | agent/src/runner.py:1048-1069 | one pair passes exactly when its check passes and its font resolves and validates, and otherwise raises what failed first |
| `JobBuild.JobBuilder.ResolveAll` | agent/src/runner.py:1041-1089 | the gated loop raises at the first pair that fails; it archives nothing, keeps one file per pair and queues exactly the freshly attested ones in job order |
| `JobBuild.JobBuilder.ArchiveAll` | agent/src/runner.py:1120-1131 | the deferred writes go to the archive up to the first that fails |
| `JobBuild.JobBuilder.BuildDirectly` | agent/src/runner.py:1041-1118 | ungated, every pair is archived as soon as it is built, and the first that does not build stops the loop |
| `JobBuild.JobBuilder.BuildValidateAndPackage` | agent/src/runner.py:1006-1166 | result and archive of a build, cached, gated or not, for every world and every number of checks before |
| `JobArchive.FirstStopExact` | agent/src/runner.py:1048-1072 | no pair stops the gated loop exactly when every pair passes |
| `JobArchive.GatedBuildsExactly` | agent/src/runner.py:1041-1166 | a gated build succeeds exactly when there are pairs, all pass, all deferred writes succeed, both checks around the packager pass and it packages; then the archive holds every attested font |
| `JobArchive.FailedGatedJobArchives` | agent/src/runner.py:1120-1166 | a failed gated job leaves fonts archived exactly when every pair passed and the first deferred write succeeded, but a later write, a check or packaging failed |
| `JobArchive.AllOrNothingExactly` | agent/src/runner.py:1120-1131 | the archive gets all attested fonts or none, exactly unless every pair passed and a write after the first fails |
| `JobArchive.GatedArchiveIsAttested` | agent/src/runner.py:1100-1131 | however a gated job ends, each archived entry is the attested file that its own pair resolved to |
| `JobArchive.UngatedBuildsExactly` | agent/src/runner.py:1041-1166 | an ungated build succeeds exactly when there are pairs, each builds, validates and is archived, and packaging succeeds |
| `JobArchive.FailedUngatedJobArchives` | agent/src/runner.py:1091-1118 | a failed ungated job leaves fonts archived exactly when some archiveable pair and all before it were built |
| `JobArchive.WrittenExactly` | agent/src/runner.py:1104-1116 | the ungated loop archives something exactly when an archiveable pair and all before it build |
| `JobArchive.CachedBuildsExactly` | agent/src/runner.py:1038-1166 | cached files are packaged exactly when there are some, the checks pass and packaging succeeds; nothing is archived |
| `JobArchive.ArchivedPastTheWall` | agent/src/runner.py:1120-1142 | a concrete job whose fonts are archived although it fails at the wall |
| `JobPublication.JobRunner.UploadAll` | agent/src/runner.py:1600-1659 | parts are uploaded in order up to the first that does not upload, which ends the job as its answer says |
| `JobPublication.JobRunner.Settle` | agent/src/runner.py:1675-1694 | the message is acknowledged, retried or left alone as the answer to the completion demands |
| `JobPublication.JobRunner.Publish` | agent/src/runner.py:1593-1694 | everything sent and the result, for every world |
| `JobPublication.JobRunner.ProcessClaimed` | agent/src/runner.py:1239-1303 | everything sent, the result and the archive of a claimed job, for every world |
| `JobSafety.CompletesExactly` | agent/src/runner.py:1593-1672 | a completion is sent exactly when the build succeeds, every check after it passes and every part uploads |
| `JobSafety.GatedCompletesExactly` | agent/src/runner.py:1041-1672 | gated: exactly when every pair passes, every deferred write and packaging succeed and everything uploads; then every attested font is archived |
| `JobSafety.UngatedCompletesExactly` | agent/src/runner.py:1041-1672 | ungated: exactly when every pair builds, packaging succeeds and everything uploads |
| `JobSafety.CompletionIsExact` | agent/src/runner.py:1607-1672 | there is one completion, with the manifest's parts in order, each uploaded before under the same lease token |
| `JobSafety.AcknowledgedExactly` | agent/src/runner.py:1674-1694 | the message is acknowledged exactly when the Worker confirmed or finally refused the completion, or answered a failure report with ack |
| `JobSafety.AmbiguousIsRetried` | agent/src/runner.py:1685-1688 | an unclear answer to the completion leads to a retry, no acknowledgement and no failure report |
| `JobSafety.ReportsExactly` | agent/src/runner.py:1259-1290 | a failure is reported exactly for a plainly refused upload, as retryable, and for what raised other than the fence |
| `JobSafety.FailureIsReported` | agent/src/runner.py:1259-1290 | an error that raised is reported once, under its own code, not retryable exactly for eighteen codes; besides it only a refused upload is reported |
| `JobSafety.FenceIsNotReported` | agent/src/runner.py:1259-1264 | a job that noticed the fence sends nothing more and reports no failure |
| `ErrorCodes.SafeErrorCode` | agent/src/runner.py:163-171 | the loop over the known prefixes finds the code of the first that matches, after the known codes and before the unexpected one |
| `ErrorCodes.CodeIsBounded` | agent/src/runner.py:163-171 | whatever text was raised, a report carries a known code, the code of a known prefix or UNEXPECTED_RUNTIME_ERROR |
| `ErrorCodes.RunnerTexts` | agent/src/runner.py:1037-1136 | the texts the build raises, with their style or format appended, are reported under the codes that stop it |
| `ErrorCodes.RaisedTextIsReported` | agent/src/runner.py:1259-1290 | any text but that of the fence is reported under its mapped code, not retryable exactly for the eighteen |
| `JobSafety.WallIsTerminal` | agent/src/runner.py:106-130 | a report is retryable exactly when its code is not terminal, so a wall breach never is |
| `JobSafety.WallIsReported` | agent/src/runner.py:1277-1290 | a job, gated, ungated or cached, that is at a check when the wall is met, whichever check it is (before a pair, around packaging, around the uploads), is reported as FAST30_FAILED, not retryable, and completes nothing |
| `JobSafety.FailsAfterCompletionExactly` | agent/src/runner.py:1244-1290 | after a confirmed completion the job is reported failed exactly when the acknowledgement raised something other than the fence |
| `JobSafety.FailedAfterCompletion` | agent/src/runner.py:1244-1290 | a concrete job that is reported failed after the Worker confirmed its completion |
| `LeaseLiveness.LeaseWatch.OnBeat` | agent/src/runner.py:319-336 | what the loop does with a result realises the matching step of the run, and it stops exactly when the run does |
| `LeaseLiveness.LeaseWatch.CheckLivenessFence` | agent/src/runner.py:979-1004 | the check realises the guard of the run and raises exactly when that does not pass; under the bound, in any reachable state, a check that does not raise implies an unexpired lease |
| `LeaseLiveness.StepKeeps` | agent/src/runner.py:293-341 | every step keeps the Worker's expiry at most one answer delay behind the last counted beat plus the lease |
| `LeaseLiveness.BeatsAreSpaced` | agent/src/runner.py:287-345 | in every run two beats are at least the interval apart, and in a punctual one at most the interval and the time a beat may take |
| `LeaseLiveness.BoundIsEnough` | agent/src/runner.py:979-1004 | under 3 intervals + 15 + longest answer delay < lease, a passing check implies an unexpired lease, in every interleaving |
| `LeaseLiveness.SafeExactly` | agent/src/runner.py:979-1004 | and only under that bound, even for a perfectly punctual loop |
| `LeaseLiveness.DefaultsAreSafe` | agent/src/config.py:235-243 | with a claim answered within 30 s the default settings are safe, and other settings the validator accepts are not |
| `LeaseLiveness.DefaultsExactly` | agent/src/config.py:235-243 | with the other defaults the fence is sound exactly when a claim is answered within less than 105 s |
| `LeaseLiveness.ExpiredStays` | edge/src/services/job-service.ts:1657-1677 | an expired lease is never revived by later beats of its holder |
| `LeaseLiveness.FencedStays` | agent/src/runner.py:992-1004 | once fenced no later check passes |
| `MetricsRegression.SortedDistinctIsSet` | agent/src/atlas/metrics.py:56 | the planned order is the distinct code points, increasing |
| `MetricsRegression.ChunksAreExact` | agent/src/atlas/metrics.py:57-63 | the slices of one size join to all code points and their number is the closed formula |
| `MetricsRegression.ChunksAreBounded` | agent/src/atlas/metrics.py:57-63 | no slice is empty or longer than the limit |
| `MetricsRegression.BuildMetricsBatches` | agent/src/atlas/metrics.py:46-63 | the plan is the slices for every size in order; a non-positive limit is refused |
| `MetricsRegression.CallCountIsExact` | agent/src/atlas/metrics.py:66-71 | the recorded number of calls is the number of planned batches |
| `MetricsRegression.SlopeThroughOrigin` | agent/src/atlas/metrics.py:118-135 | the loop returns the least-squares slope and the root mean square of the relative residuals, or refuses data without a size |
| `MetricsRegression.RelativeScales` | agent/src/atlas/metrics.py:128-135 | the residual of a size is its miss divided by that size, squared |
| `MetricsRegression.SlopeIsLeastSquares` | agent/src/atlas/metrics.py:118-127 | that slope minimises the squared error over all slopes and is the only one that does |
| `MetricsRegression.ErrorZeroExactly` | agent/src/atlas/metrics.py:118-127 | the squared error is never negative and zero exactly for data on the line |
| `MetricsRegression.ResidualZeroExactly` | agent/src/atlas/metrics.py:128-135 | with positive sizes the residual is zero exactly when the data are proportional to size |
| `MetricsRegression.BearingsAddUp` | agent/src/atlas/metrics.py:182-206 | left bearing, box width and right bearing add up to the advance, and the descent is never positive |
| `MetricsRegression.BoxIsScaled` | agent/src/atlas/metrics.py:182-206 | the ink box is as wide and as high as its two extents, in thousandths of the em, and stands on the left bearing and under the ascent |

## Left out

- Floating point: all arithmetic is over reals; only the thresholds 1e-12 (interpolation), 1e-9 (flat edges), 1e-6 (chords, gradient norm) and 0.35 (distance) are kept.
- `coverage_to_ink` thresholds with >= while the contours use >; the model's ink is the contour rule.
- ContourWalk.TraceLoops: walks of more than 10,000,000 steps are cut by the guard, so its covering clause speaks of inputs of no more segments; ContourMask.SmallGridLosesNothing says which grids those are.
- EvenOddFill.RasterizeSegmentsMask: masks without columns or with negative height are not modelled.
- CurveTolerance.PolygonResidualIsHonest: says nothing about tolerances below 1e-6 with a budget of two or more, under which spans can be skipped; CurveTolerance.ResidualIsHonest covers every emitted span at any tolerance. An empty fit has nothing to be near (CurveClosing.EmptyExactly says when).
- CurveTolerance.PolygonWithinTolerance: the same, and speaks of solvers that minimise the squared misses.
- CurveTolerance.PiecesWithinTolerance: a line is followed as a whole line, as the code measures it; a vertex may lie beyond its ends.
- CurveFit.FitPolyline: the centroid and squared distances of the anchor are exact, so ties are true ties.
- `classify_topology`, `structural_check`, `mask_iou`, the distance field and the least-squares solver: heuristics or numerics, left uninterpreted or out.
- LocalOptimizer.BoundedLocalOptimizer: takes the segment objects of all contours as one list of different objects and the mapping's point arithmetic as exact.
- AlphaMerge.MergeAlphaObservations: takes decoded coverage planes; float32 rounding is not modelled.
- ShelfPacking.PlanIsSound: cells of zero or negative size are outside the statement; the planner itself does not refuse them.
- CellStack.StackCropIdentity: glyph ink is any coverage map that stays between the top and bottom of its cell; anti-aliasing and glyph shapes are the renderer's.
- CanvasCapture.Classify: pixel comparison with the fallback fonts is summarised by one flag and the ink bounds.
- CanvasAcceptance.Capture: face descriptors and provenance checks of a size are one flag; kerning pairs and features carried in the payload are not modelled.
- RasterPages.IsCompleteRasterPages: sprite boxes are integers, MD5 values are already trimmed and lower-cased, the cursor text is the number of the next page.
- SpriteCrawl.FetchAllSpritePages: requests of different sizes are independent, so their interleaving under the semaphore is not modelled; bodies are already decoded.
- AtlasCache.WriteReads: the entry, sidecar and temporary files of different keys have different names; a crash is the death of the process, with torn or damaged bodies covered by AtlasCache.DamageIsAMiss.
- AtlasCache.AtlasCheckpointStore.Load: JSON that is no object, or a list that holds no numbers, raises in the code and is not modelled.
- FontCache.NeverMixesExactly: the files the probe writes out and what the identity is computed from are left out.
- StreamingPipeline.AtlasUltraPipeline.Run: starts from a checkpoint file that is UTF-8, as every save leaves one. Fast geometry and refinement are fixed functions of the code point. The resume path recomputes cells with their own pen offset, so this rests on no cell having lost it on a new shelf; the page plan is any plan that covers the pending code points once, as ShelfPacking.PlanIsSound shows for the planner, and a planner error is not modelled. Metrics, prefetching, counters, typography and everything after refinement are left out.
- JobPublication.JobRunner.ProcessClaimed: every check is an answer of the world (fence, wall or nothing); claiming, acquisition, resolution tiers, font building, validation and zipping are oracles; a wall timeout while the build thread runs leaves that thread running in the source, which is not modelled.
- LeaseLiveness.SafeExactly: Worker and runner clocks run at the same rate, the answer to a claim is bounded by a parameter, and only heartbeats, expiry and the age limit of the Worker are modelled. Beats that are lost without reaching the Worker change nothing and take no step.
- LeaseLiveness.LeaseWatch.OnBeat: the holder list, the event object and the thread around them are one object.
- MetricsRegression.SlopeThroughOrigin: global metrics and parsing of measured rows are left out.
- Network, browser, database, PNG, JSON and HTML work, logging, settings and reports: left out.
