# imageflow's C engine, modelled and proved

imageflow decodes, resizes, filters and encodes images; its engine is a set of
C files in which a fast or stateful form has to agree with a simple one. This
project writes those forms down in Dafny as the C code has them (records and
buffers as mutable state, loops as loops, error exits as results) and proves
each against a definition of what it is for. Floating point is modelled by
exact reals, filters and colour conversions by functions about which nothing is
assumed.

## What is modelled

**Ownership-tracking allocator** (`OwnershipForest`, `RecordTable`,
`ObjectTracker`, `TeardownOrder`, `TrackerRuns`). A growable slot table of live
objects with owner links and destructors. A ghost trace records every destructor run and
every free, so "exactly once" and "before" are statements about runs. `Valid`
is kept by every call from outside: owner links form a forest of live objects,
the next free slot is the least unused one, and the byte statistics equal sums
over the table. Teardown is proved against a post-order of the ownership forest;
the mutual recursion ends because subtrees shrink. Two operations keep the table
valid only under a condition that is given exactly: reallocation (the block
stays put or owns nothing) and handing over an object (the new owner is already
marked as an owner and not below the object). `TrackerRuns` puts calls together:
over every run within that contract the state stays valid and no destructor runs
twice for one object, and termination leaves nothing the context owns.

**Resampler** (`WeightedRows`, `ContributionWindows`, `ContributionWeights`,
`LineContributions`, `SlotTags`, `WindowRuns`, `DippedFilters`, `CubicFilters`,
`FilterValues`, `RowCache`, `SeparableScale`). Contribution windows are computed, adjusted and
trimmed in place; the vertical pass keeps a few source rows in a cache and rescales them in place from one weight to the
next. The cached computation equals the direct double sum over original pixels
for every sequence of windows. The cache never runs out of slots as long as every
window starts near enough to the ends of earlier ones; two windows run out
exactly when the second falls back at both ends. Windows do fall back, since
trimming drops weights next to an inner zero of the filter, yet none of the
built-in filters made of polynomials ever exhausts the cache, at any sizes
(`BuiltInNeverFull`); for cubics in general the one exception is given exactly
(`WideFullIff`). For any filter at all: the cache does not run out when the filter
has no inner zeros where it is asked, when those are the whole distances, or when
they stand alone (one source pixel to either side the filter is kept) and the
line is longer than the filter.

**Blurs and convolution** (`BlurSpec`, `BoxBlur`, `GaussianBlur`, `KernelSpec`,
`KernelConvolve`, `ConvolutionKernel`). Rows are blurred in place behind a
circular delay buffer; the results are window means and kernel sums of the
original row.

**Transposes and flips** (`Sequences`, `PictureSpec`, `BitmapTransform`,
`Orientation`). The blocked transpose with its remainder copies, the flips in place, and the chains
of them that the graph puts in for rotations and EXIF orientations.

**Halving** (`Memory`, `HalvingSpec`, `Halving`, `HalvingMeans`, `HalvingLight`,
`HalvingBitmaps`). One routine for any arithmetic of the row buffer, used with
sixteen-bit sums and with linear light; in place and into other memory; and
exactly for which divisors the bytes are means of blocks.

**Content detection** (`EdgeDetection`, `EdgeResponse`, `ScanWindows`,
`ContentScan`, `ContentRectangle`, `ContentSearch`). The window planner with its
unsigned arithmetic, the grey buffer, the edge detector and the box it grows. The
result is a function of the image, and what that function may lose is bounded:
two pixels, wherever it looks. An image counts as blank exactly when nothing can be
detected in it, and a rectangle around the middle of an image is found exactly.

**JPEG side** (`BlockSpec`, `BlockPlacement`, `BlockScaler`, `IccProfile`,
`JpegSource`, `JpegDestination`, `OutputBuffer`). Fixed-point block scalers over
one table of taps, with what every sample gives to every pixel listed apart from it;
reassembly of colour profiles from the markers they were written into, the source
and destination byte streams, and the growable output buffer.

Every linear routine (scaling, blurs, convolution, halving, block scalers) has a
theorem on what becomes of a single pixel: `OnePixelScales`, `OnePixelSpreads`,
`OnePixelConvolved`, `OneByteHalved`, `SingleSample`.

`Options` and `Numbers` hold the few definitions shared by all.

## Where the code departs from its apparent intent

The model follows the code; these departures are proved, not only noted.

- The net count of allocations is raised by frees
  (`c_components/lib/context_heap.c:48`): `NetCountDrifts`.
- Handing an object over does not mark the new owner
  (`c_components/lib/context_heap.c:347-361`), so it is sound exactly onto null,
  the context or an owner already marked: `ReownedConsistent`.
- Reallocating an object that owns others leaves them with a dead owner:
  `MovedConsistent`.
- In the sharpening branch a filter without negative lobes is left without
  normalisation (`c_components/lib/weighting.c:426-430`): `TotalsOne`.
- Trimming can make a window start and end before the one it follows, which
  happens with built-in filters, too (`BuiltInFallsBack`), and can exhaust the row
  cache: `TwoWindows`, `FallingBackFillsUp`. Built-in filters made of polynomials
  never do (`BuiltInNeverFull`). A custom
  cubic whose zero lies at seven sixths, where that of Robidoux nearly is, does it
  when four rows are enlarged to six: `FourToSixFillsUp`, `SeventhsFillUp`.
  `flow_interpolation_details_create_from` never returns that one.
- The blur of even width with alignment 1 writes one pixel too far to the right
  and starts with a stale pixel of its work buffer
  (`c_components/lib/convolution.c:293,336-339`): `MisalignedRow`. In the
  Gaussian of even diameter that stale pixel is a pixel of the first step, known
  exactly: `EvenGaussian`.
- Convolution skips column 0 in the border
  (`c_components/lib/convolution.c:172`): `BorderSkipsFirstColumn`; when the
  result is the mean all the same: `BorderIsMean`.
- Halving by 2 to an even width takes pixels in pairs and gives every other
  pixel the block one source pixel too far left
  (`c_components/lib/scaling.c:311-316`): `PairedMean`; divisor 1 gives zeros
  and divisors from 17 on wrap around: `OnlyExactMean`. In linear light means end
  at divisor 255, since the square is cut to sixteen bits
  (`c_components/lib/scaling.c:220`): `OnlyLightMean`. A failed halving in place
  still changes the bitmap's size: `HalveBitmapInPlace`.
- The plain 5 by 5 to 7 by 7 block scalers clamp at 4096 instead of 256, so a
  pixel that should be white can come out nearly black: `RingingWraps`,
  `OnlySmallScalersClamp`. They do not keep the order of samples either:
  `OnlySmallScalersKeepOrder`.
- The second scan of content detection reuses the first table of strips
  (`c_components/lib/trim_whitespace.c:116`); the model does the same and claims
  completeness only for what it looks at: `RegionsHave`, `EverythingFound`.

## What is asked of callers

Preconditions are the ones the C code relies on without checking: live pointers
are distinct and new blocks fresh; a radius no larger than the row and buffers
of the declared size; in the blur of even width a radius of one or more, hence a
row of three or more pixels for the Gaussian, because with radius 0 the code
reads outside the row (`ReadsInside`); sizes of one or more for flips; bitmaps
whose rows fit their memory; divisors from 1, for sixteen-bit sums no multiples of
256, because whole numbers are then divided by zero; scan regions that run
forward; colour tables of 256 and 4096 entries. Whether memory can be had is a
parameter.

## Model

| member | source | states |
|---|---|---|
| `ObjectTracker.Tracker.constructor` | c_components/lib/context_heap.c:485-497 | A new tracker is empty and valid. |
| `ObjectTracker.Tracker.UpdateStats` | c_components/lib/context_heap.c:42-60 | Gross, net, freed and peak byte counts move as reported; the net count of allocations is raised by frees as well as by allocations. |
| `ObjectTracker.Tracker.NetCountDrifts` | c_components/lib/context_heap.c:46-48 | In every valid state the recorded net count exceeds the number of live objects by twice the frees, so it is right only before the first free. |
| `ObjectTracker.Tracker.RecordIdOf` | c_components/lib/context_heap.c:131-147 | The last slot holding the pointer, or -1 exactly when no slot does. |
| `ObjectTracker.Tracker.ExpandRecordArray` | c_components/lib/context_heap.c:10-40 | The table grows to twice its size and one, at least 64, old records kept and new ones unused. |
| `ObjectTracker.Tracker.Add` | c_components/lib/context_heap.c:62-109 | A record goes into the least unused slot, its owner is marked, validity and conservation of bytes are kept; it fails only when the table is full and cannot grow, so the occupied-slot error is never met. |
| `ObjectTracker.Tracker.FindNextSlot` | c_components/lib/context_heap.c:99-106 | Afterwards the next free slot is the least unused one, or the table is full. |
| `ObjectTracker.Tracker.Malloc` | c_components/lib/context_heap.c:162-189 | Either the block is tracked and the state valid, or nothing is tracked and the block, if there was one, went back. |
| `ObjectTracker.Tracker.Realloc` | c_components/lib/context_heap.c:149-217 | A null pointer is an allocation, with the same success and effect; a known object's record moves to the new block and size, destructor and owner kept; afterwards the state is valid if and only if the block stayed put or owns nothing. |
| `ObjectTracker.Tracker.SetDestructor` | c_components/lib/context_heap.c:329-344 | Exactly the named object gets the destructor; a null or unknown object is an error that changes nothing. |
| `ObjectTracker.Tracker.SetOwner` | c_components/lib/context_heap.c:347-362 | Exactly the named object changes hands; afterwards the state is valid if and only if the new owner is null, the context, or a marked owner not below the object. |
| `ObjectTracker.Tracker.CallDestructor` | c_components/lib/context_heap.c:219-238 | A pending destructor runs once and is marked as called; another call on the record does nothing. |
| `ObjectTracker.Tracker.CallDestructorsRecursive` | c_components/lib/context_heap.c:240-263 | Marks and runs exactly the pending destructors of everything the owner transitively owns, in post-order; succeeds exactly when all of them do; terminates by the shrinking subtree. |
| `ObjectTracker.Tracker.RunDestructors` | c_components/lib/context_heap.c:275-285 | The destructors of an object and its whole subtree have run, its own last. |
| `ObjectTracker.Tracker.FreeRecord` | c_components/lib/context_heap.c:295-307 | The block is freed, the record emptied, the statistics match the smaller table. |
| `ObjectTracker.Tracker.PartialDestroyByRecord` | c_components/lib/context_heap.c:265-310 | Removes exactly the object and its subtree: all their destructors first, then all their frees; the recursive destroy inside runs no destructor again. |
| `ObjectTracker.Tracker.DestroyByOwner` | c_components/lib/context_heap.c:312-327 | Removes exactly what the owner transitively owns and leaves every other record as it was; statistics and the least unused slot are kept throughout. |
| `ObjectTracker.Tracker.Destroy` | c_components/lib/context_heap.c:364-387 | Destroys the tracked object with its subtree and stays valid; an unknown pointer is an error that changes nothing, null does nothing. |
| `ObjectTracker.Tracker.BeginTerminate` | c_components/lib/context.c:319-331 | Context teardown leaves exactly the records the context does not own, in a valid state. |
| `RecordTable.QuietTeardown` | c_components/lib/context_heap.c:265-310 | When no destructor of a subtree is pending its teardown consists of frees alone: the later recursive destroy calls no destructor. |
| `RecordTable.FreesAfterDestructors` | c_components/lib/context_heap.c:275-293 | After the first phase marked a subtree, the second phase frees it in the same post-order and removes the same records. |
| `RecordTable.RemoveStep` | c_components/lib/context_heap.c:312-327 | Destroying a child on the table that earlier children left is destroying it on the original: records, subtree, events and outcome agree. |
| `RecordTable.MarkStep` | c_components/lib/context_heap.c:244-260 | Running destructors child by child is running them for the post-order of the owner as a whole. |
| `RecordTable.RemovedKeepsConsistent` | c_components/lib/context_heap.c:265-310 | Removing an object with its subtree leaves owners live, links a forest, marks sound. |
| `RecordTable.DoomedIsSubtree` | c_components/lib/context_heap.c:287-293 | What is destroyed with an object is the object and what it transitively owns, nothing else, each once. |
| `RecordTable.AddedKeepsConsistent` | c_components/lib/context_heap.c:62-109 | Adding a fresh object under a live owner keeps live pointers distinct, owners live and links acyclic. |
| `RecordTable.AddedFacts` | c_components/lib/context_heap.c:67-108 | The grown and marked table has one live record and its bytes more, and nothing unused below the next free slot. |
| `RecordTable.AddedIs` | c_components/lib/context_heap.c:62-109 | Slot by slot what adding leaves: the new record, the old ones, unused slots behind; only the mark of the new record's owner changes. |
| `RecordTable.MovedConsistent` | c_components/lib/context_heap.c:191-217 | A reallocated object keeps the table consistent if and only if its block stayed or it owns nothing. |
| `RecordTable.ReownedConsistent` | c_components/lib/context_heap.c:347-362 | A hand-over, which does not mark the new owner, keeps the table consistent if and only if the new owner may take over. |
| `RecordTable.SumsAfterUpdate` | c_components/lib/context_heap.c:42-60 | Bytes and count of live records change by exactly the record updated. |
| `OwnershipForest.SubtreeShrinks` | c_components/lib/context_heap.c:249-251 | A child's subtree is strictly smaller than its owner's: the rank by which the mutual recursion ends. |
| `OwnershipForest.PostOrderIsSubtree` | c_components/lib/context_heap.c:240-263 | The order of the recursion visits exactly what the owner transitively owns. |
| `OwnershipForest.PostOrderNoRepeats` | c_components/lib/context_heap.c:240-263 | The order of the recursion visits no slot twice. |
| `OwnershipForest.PostOrderOwnedFirst` | c_components/lib/context_heap.c:248-259 | The order of the recursion visits an object after everything it owns. |
| `OwnershipForest.PrunedPostOrder` | c_components/lib/context_heap.c:312-327 | Removing other subtrees does not change the order in which a subtree is visited. |
| `OwnershipForest.SiblingsDisjoint` | c_components/lib/context_heap.c:316-324 | The subtrees of two children have nothing in common. |
| `OwnershipForest.OwnedIffBelowChild` | c_components/lib/context_heap.c:245-252 | An object is transitively owned exactly when it is at or below a direct child. |
| `OwnershipForest.HandedForest` | c_components/lib/context_heap.c:347-362 | Handing an object to an owner that is not below it keeps the links a forest, and only that does. |
| `TeardownOrder.DestroyTearsDown` | c_components/lib/context_heap.c:265-310 | In a destroy each doomed object's destructor, if any, runs exactly once and its block is freed exactly once, and nothing else happens. |
| `TeardownOrder.DestroyOwnersOutlive` | c_components/lib/context_heap.c:275-296 | In a destroy every destructor comes before every free, and an object's destructor and free come after those of all it owns. |
| `TeardownOrder.TeardownIsExact` | c_components/lib/context_heap.c:312-327 | Destroying all an owner owns tears down exactly its transitive possessions, owners outliving what they own. |
| `TeardownOrder.TeardownLeavesRest` | c_components/lib/context_heap.c:312-327 | Afterwards records not owned are untouched and the owner owns nothing. |
| `TrackerRuns.SettledConcat` | c_components/lib/context_heap.c:219-310 | Traces in which every destructor run is followed by its object's free, and that before another run at the same address, can be put one after the other. |
| `TrackerRuns.DestroySettled` | c_components/lib/context_heap.c:265-310 | The trace of a destroy is such a trace. |
| `TrackerRuns.TeardownSettled` | c_components/lib/context_heap.c:312-327 | So is the trace of destroying all an owner owns. |
| `TrackerRuns.ClimbStep` | c_components/lib/context_heap.c:240-263 | An object is below another exactly when its owner is, and the owner's subtree is strictly larger. |
| `TrackerRuns.Allowed` | c_components/lib/context_heap.c:149-387 | Decides exactly whether a call meets what the tracker asks of its callers. |
| `TrackerRuns.Perform` | c_components/lib/context_heap.c:162-387 | Every call within the contract, whatever it returns, keeps the state valid and the trace settled. |
| `TrackerRuns.Run` | c_components/lib/context_heap.c:162-387 | Over every sequence of calls within the contract bytes are conserved, the next free slot is the least unused one, owners are live, and no destructor runs twice for one object. |
| `TrackerRuns.Life` | c_components/lib/context.c:319-331 | After any run from an empty tracker, termination leaves nothing the context owns, directly or not, and no destructor ran twice or without its object being freed after it. |
| `ContributionWindows.CenterInside` | c_components/lib/weighting.c:387-389 | The centre of an output pixel lies between the outer edges of the first and last source pixel. |
| `ContributionWindows.CentersMirror` | c_components/lib/weighting.c:387-389 | Centres seen from the other end of the line are those of the pixels from the other end; at equal sizes every pixel is its own centre. |
| `ContributionWindows.AllocationReaches` | c_components/lib/weighting.c:373-375 | Half the allocation, rounded either way, reaches the filter's window scaled to the source. |
| `ContributionWindows.WindowFits` | c_components/lib/weighting.c:389-404 | For all sizes and every filter window of zero or more the contribution window is nonempty, inside the source, no larger than the allocation: the error is unreachable. |
| `ContributionWindows.WindowCovers` | c_components/lib/weighting.c:389-393 | It holds every source pixel whose scaled distance is within the filter's window. |
| `ContributionWindows.WindowsAscend` | c_components/lib/weighting.c:387-393 | Neither end of the untrimmed windows ever moves back. |
| `ContributionWeights.TotalIsMasses` | c_components/lib/weighting.c:421-427 | The total of the weights is their positive less their negative mass. |
| `ContributionWeights.NormalisedTotal` | c_components/lib/weighting.c:431-443 | Outside the sharpening branch the adjusted weights total one. |
| `ContributionWeights.NormalisedWeights` | c_components/lib/weighting.c:425-442 | Outside the sharpening branch every weight times the total of all is the weight it was. |
| `ContributionWeights.SharpenedWeights` | c_components/lib/weighting.c:425-442 | In the sharpening branch weights not below zero stay, and the negative ones keep their ratios, each times the goal and the positive mass over the negative mass. |
| `ContributionWeights.SharpenedMasses` | c_components/lib/weighting.c:426-437 | In the sharpening branch with negative mass the positive mass stays and the negative mass becomes the goal times it; a goal below zero turns the negative weights into as much positive mass; the total is the positive mass less the goal times it either way. |
| `ContributionWeights.TotalsOne` | c_components/lib/weighting.c:426-443 | The adjusted weights total one if and only if they were normalised or the masses happen to fit the goal: a filter without negative lobes stays unnormalised in the sharpening branch. |
| `ContributionWeights.TrimmedEnds` | c_components/lib/weighting.c:444-459 | The trimmed window lies in the untrimmed one and has nonzero ends, or is empty exactly when all weights are zero. |
| `ContributionWeights.TrimmedSum` | c_components/lib/weighting.c:444-459 | Trimming changes no weighted sum of anything. |
| `LineContributions.Fill` | c_components/lib/weighting.c:411-423 | The slice holds the filter's values, those next to nothing as zero, with their total and negative mass. |
| `LineContributions.Adjust` | c_components/lib/weighting.c:434-442 | Negative weights are multiplied by one factor, the others by the other, in place. |
| `LineContributions.Factors` | c_components/lib/weighting.c:425-433 | The two factors give the adjusted weights, in both branches. |
| `LineContributions.Trim` | c_components/lib/weighting.c:444-459 | Moves both ends past the zero weights. |
| `LineContributions.CreateWindow` | c_components/lib/weighting.c:386-459 | One output pixel's window is the trimmed, adjusted, filtered one; the size error never occurs. |
| `LineContributions.CreateLine` | c_components/lib/weighting.c:363-463 | A line of windows, all inside the source, is always made. |
| `LineContributions.WindowWeights` | c_components/lib/weighting.c:386-459 | The weight a finished window gives to each source pixel: the filter's over the total of all, or when sharpening the filter's own, the negative ones to the goal; trimmed pixels have weight zero. |
| `LineContributions.OneColourScalesToItself` | c_components/lib/weighting.c:425-443 | At any sizes an image of one colour scales to that colour wherever both axes are normalised and no vertical weight is nonzero yet skipped. |
| `WeightedRows.LastShare` | c_components/lib/scale2d.c:186-195 | A weighted sum of rows is the sum without the last row plus that row's share. |
| `SlotTags.TouchKeepsWindow` | c_components/lib/scale2d.c:148-183 | Finding or evicting a slot keeps tags distinct and forgets no row of the current window. |
| `SlotTags.TagsMissingRow` | c_components/lib/scale2d.c:115-121 | Pigeonhole: distinct tags within a window that miss one of its rows are fewer than its rows. |
| `SlotTags.MissingRowFindsSlot` | c_components/lib/scale2d.c:145-170 | With a slot for each row of the window and no tag beyond it a missing row finds a slot. |
| `SlotTags.TouchFromHolds` | c_components/lib/scale2d.c:140-185 | Once every row of a window found a slot, all its rows are cached and no row from its start on was forgotten. |
| `SlotTags.TouchFromCached` | c_components/lib/scale2d.c:145-157 | A window all of whose rows are cached changes no tag. |
| `SlotTags.TouchFromAddsRows` | c_components/lib/scale2d.c:145-183 | A window adds no tags but its own rows. |
| `SlotTags.SpansFitNeverFull` | c_components/lib/scale2d.c:115-170 | The "buffer too small" error is unreachable when from the start of each window to the end of any earlier one is no further than the largest window is long, though windows may fall back. |
| `SlotTags.SpansUnlessBack` | c_components/lib/scale2d.c:115-170 | Only a window that starts and ends before an earlier one can be further from it than that. |
| `SlotTags.NoneFallsBackNeverFull` | c_components/lib/scale2d.c:115-170 | So the error is unreachable as long as no window starts and ends before an earlier one; either end alone may fall back freely. |
| `SlotTags.TwoWindows` | c_components/lib/scale2d.c:115-170 | Two windows reach the error if and only if the second starts and ends before the first. |
| `SlotTags.NeverFullWhateverIsLeftOut` | c_components/lib/scale2d.c:115-170 | Exactly when no window falls back at both ends the error is unreachable for the windows and for every selection of them in order. |
| `SlotTags.FallingBackFillsUp` | c_components/lib/scale2d.c:158-170 | In any sequence a window that falls back at both ends from the one before it reaches the error, if either of the two is as large as the buffer. |
| `WindowRuns.AdjustedZeros` | c_components/lib/weighting.c:425-442 | Adjustment makes no weight zero and no zero a weight, unless sharpening to a goal of nothing erases the negative ones. |
| `WindowRuns.WindowEnds` | c_components/lib/weighting.c:389-459 | The window as left by trimming runs from the first to the last pixel at which the filter is kept. |
| `WindowRuns.FallBackCuts` | c_components/lib/weighting.c:387-459 | A later window starts before an earlier one only where the earlier one has an inner zero of the filter among the places it is asked for, and ends before it only with an inner zero where the earlier one ends. |
| `WindowRuns.UncutNeverFull` | c_components/lib/weighting.c:363-463 | For any filter the row cache never runs out unless an inner zero cuts one row short on the left and a later one on the right. |
| `WindowRuns.UntrimmedNeverFull` | c_components/lib/weighting.c:389-393 | Nor does it where no right end is trimmed, whatever sharpening erased. |
| `WindowRuns.IntervalNeverFull` | c_components/lib/weighting.c:386-459 | For a filter without inner zeros where it is asked both trimmed ends ascend and the row cache never runs out, at any sizes. |
| `WindowRuns.PlaceLater` | c_components/lib/weighting.c:387-415 | From one row to the next the filter is asked for a pixel one further in its own units, in an enlargement the ratio of the sizes. |
| `WindowRuns.FallBackIsShort` | c_components/lib/weighting.c:387-459 | When inner zeros stand alone, a fall back at both ends needs the shorter of input and output to be no longer than twice the filter's window. |
| `WindowRuns.LongLineNeverFull` | c_components/lib/weighting.c:363-463 | So, when inner zeros stand alone, the row cache never runs out for longer lines. |
| `WindowRuns.InterpolatingNeverFull` | c_components/lib/weighting.c:363-463 | With a filter that, where it is asked, vanishes at whole distances other than zero and has no other inner zeros, the row cache never runs out, at any sizes. |
| `DippedFilters.NearestKept` | c_components/lib/weighting.c:387-416 | Every output pixel keeps the source pixel nearest to its centre. |
| `DippedFilters.FallBackPlaces` | c_components/lib/weighting.c:387-459 | For a filter with one pair of inner zeros a fall back at both ends puts the left dip on one pixel in the earlier row and the right dip on another in the later row. |
| `DippedFilters.ReducedKeepsOrder` | c_components/lib/weighting.c:369-393 | No reduction makes such a filter fall back at both ends when its lobe is no wider than one row's step. |
| `DippedFilters.TwoCovered` | c_components/lib/weighting.c:371-393 | In an enlargement the untrimmed window holds every source pixel less than two away, also for filters that reach beyond their window. |
| `DippedFilters.NarrowNeverFull` | c_components/lib/weighting.c:363-463 | Such a filter with its dip at most one from the centre never exhausts the row cache, at any sizes, though its windows may fall back at both ends. |
| `DippedFilters.WideNeverFull` | c_components/lib/weighting.c:363-463 | With the dip between one and five quarters from the centre the row cache is never exhausted but for four rows enlarged to six by a filter that vanishes at seven sixths. |
| `DippedFilters.FourToSixFillsUp` | c_components/lib/scale2d.c:158-170 | Those sizes and filters do reach the "buffer too small" error. |
| `DippedFilters.WideFullIff` | c_components/lib/weighting.c:363-463 | So for such filters the row cache is exhausted exactly there. |
| `CubicFilters.OuterFactors` | c_components/lib/weighting.c:24-47 | The outer piece of a cubic filter has a double zero at two and one more, at (b/3 + c) / (b/6 + c). |
| `CubicFilters.CubicDips` | c_components/lib/weighting.c:24-47 | A cubic filter with negative lobes is kept in its core and its lobes, vanishes for good beyond them, and has its inner zeros in a narrow dip. |
| `CubicFilters.LobedDips` | c_components/lib/weighting.c:222-306 | The fourteen built-in cubic filters with negative lobes do so, each with its own constants. |
| `CubicFilters.BuiltInNeverFull` | c_components/lib/weighting.c:222-306 | None of the built-in filters made of polynomials, at any sizes and any sharpening that erases no weights, ever makes the scaler run out of row slots. |
| `CubicFilters.BuiltInFallsBack` | c_components/lib/weighting.c:222-306 | Their windows do fall back at both ends, though: with CatmullRomFastSharp the fifth of eight rows made from three does. |
| `CubicFilters.SeventhsFillUp` | c_components/lib/weighting.c:177-194 | A custom cubic with b = 3/8 and c = 5/16, near the constants of Robidoux, exhausts the row cache when four rows are enlarged to six. |
| `CubicFilters.OnLattice` | c_components/lib/weighting.c:369-415 | All places the filter is asked for lie on a lattice as fine as twice the larger size. |
| `CubicFilters.CatmullRomInterpolates` | c_components/lib/weighting.c:49-59 | Up to a million rows the cubic and Catmull-Rom filters with blur one vanish at whole distances other than zero and have no other inner zeros where they are asked. |
| `FilterValues.FilterIs` | c_components/lib/weighting.c:222-306 | Every built-in polynomial filter has its window and blur and runs through four points that are given as numbers. |
| `FilterValues.CubicAddsUp` | c_components/lib/weighting.c:24-49 | For every b and c the weights of the four pixels nearest to any place add up to one. |
| `FilterValues.RobidouxConstants` | c_components/lib/weighting.c:267-285 | The constants of the Robidoux filters are those with b + 2c = 1 and b = 12 / (19 + 9 root 2) or 6 / (13 + 7 root 2). |
| `FilterValues.NarrowedZero` | c_components/lib/weighting.c:267-272 | The blurs of NCubic and NCubicSharp put the zero of a Robidoux filter at distance one. |
| `RowCache.Cache.constructor` | c_components/lib/scale2d.c:123-138 | A cache of empty slots is valid for every source. |
| `RowCache.Cache.FindSlot` | c_components/lib/scale2d.c:146-165 | The slot holding the row, else the first with a row before the window, else none. |
| `RowCache.Cache.LoadRow` | c_components/lib/scale2d.c:171-185 | The slot holds the source row with coefficient one, the others are kept, no row is cached twice. |
| `RowCache.Cache.MultiplyRow` | c_components/lib/scale2d.c:3-8 | Multiplies one slot and nothing else. |
| `RowCache.Cache.AddRow` | c_components/lib/scale2d.c:9-15 | Adds one slot to the output row and nothing else. |
| `RowCache.Cache.Weigh` | c_components/lib/scale2d.c:186-195 | The output row gains the weight times the original source row, or nothing when the weight is skipped, and each slot still equals its coefficient times its row. |
| `RowCache.Cache.RenderInput` | c_components/lib/scale2d.c:145-196 | One row of the window adds its share, or no slot is found. |
| `RowCache.Cache.RenderVertical` | c_components/lib/scale2d.c:140-196 | The output row is the direct weighted sum of the original rows; it fails exactly when a row finds no slot. |
| `RowCache.Cache.ScalePixel` | c_components/lib/scaling.c:39-61 | One pixel is the weighted sum of the row's pixels, channel by channel. |
| `RowCache.Cache.ScaleRow` | c_components/lib/scaling.c:33-62 | The scaled row is the direct horizontal sum of the output row. |
| `RowCache.MaxInputRows` | c_components/lib/scale2d.c:115-121 | The size of the largest window. |
| `RowCache.Render` | c_components/lib/scale2d.c:115-213 | Every output row is the direct double sum over original pixels, for every sequence of windows; the error occurs exactly when the windows exhaust the slots. |
| `SeparableScale.PassesCommute` | c_components/lib/scale2d.c:140-207 | Vertical then horizontal scaling equals horizontal scaling of the source rows summed vertically. |
| `SeparableScale.OneColourScales` | c_components/lib/scaling.c:33-62 | An image of one colour becomes that colour times both totals of weights. |
| `SeparableScale.OneColourStays` | c_components/lib/scale2d.c:186-203 | With both totals one and no weight in the skipped gap the colour stays. |
| `SeparableScale.OnePixelScales` | c_components/lib/scale2d.c:140-207 | A single source pixel gives every output pixel its value times the weights that the two windows give to its row and its column, channel by channel. |
| `BlurSpec.SlideClipped` | c_components/lib/convolution.c:245-263 | Moving a clipped window by one adds the pixel that enters and drops the one that leaves, in sum and size. |
| `BlurSpec.PassesWithin` | c_components/lib/convolution.c:219-278 | However many passes, no channel leaves the range it had. |
| `BlurSpec.BoxBlurMirrors` | c_components/lib/convolution.c:219-278 | The box blur commutes with reading the row from right to left. |
| `BlurSpec.HalfEndsWeights` | c_components/lib/convolution.c:301-332 | Inside the row the blur of even width weighs its two end pixels a half and the rest one. |
| `BlurSpec.OnePixelSpreads` | c_components/lib/convolution.c:219-278 | A single pixel reaches exactly the pixels no further than the radius away, divided there by the number of pixels within the radius. |
| `BoxBlur.RingStep` | c_components/lib/convolution.c:273 | One step of the circular index keeps every waiting pixel findable. |
| `BoxBlur.OldestDelayed` | c_components/lib/convolution.c:250-252 | A full ring is about to reuse the slot of the pixel as many steps back as it has slots. |
| `BoxBlur.Delay` | c_components/lib/convolution.c:262-273 | The ring holds one more mean; the other slots keep what they hold. |
| `BoxBlur.BoxBlurPass` | c_components/lib/convolution.c:234-275 | One pass in place with running sum and delay buffer replaces every pixel by the mean of the original pixels in its clipped window. |
| `BoxBlur.BoxBlurRow` | c_components/lib/convolution.c:219-278 | Any number of passes. |
| `BoxBlur.MisalignedRow` | c_components/lib/convolution.c:279-350 | Refuses any alignment but -1 and 1; -1 gives the means with half-weighted ends in place, 1 gives them moved one pixel to the right behind what the buffer's last slot held; what that slot holds afterwards. |
| `BoxBlur.ReadsInside` | c_components/lib/convolution.c:306-333 | Every pixel the blur of even width reads lies in the row if and only if the radius is one or more; with radius 0 its first step asks for the pixel before the row, by an index that wraps. |
| `GaussianBlur.Diameter` | c_components/lib/convolution.c:352-357 | Never more than half the row; for a sigma of two or more it is zero exactly for rows of one or two pixels. |
| `GaussianBlur.DiameterIsNearest` | c_components/lib/convolution.c:352-357 | Unless the row is too short the diameter is the integer nearest to 3/4 of sigma times the root of twice pi, pi to fourteen places. |
| `GaussianBlur.SlotsSuffice` | c_components/lib/convolution.c:359-362 | The declared number of floats has the slots of all three blurs for one to four channels. |
| `GaussianBlur.GaussianRow` | c_components/lib/convolution.c:363-407 | Succeeds exactly for sigma two or more and a large enough buffer, else changes nothing; the result is the composition of the blurs and does not depend on what the buffer held. |
| `GaussianBlur.OddGaussian` | c_components/lib/convolution.c:387-391 | For an odd diameter the blur is three box blurs of half the diameter. |
| `GaussianBlur.EvenGaussian` | c_components/lib/convolution.c:392-404 | For an even diameter the second step's first pixel is the pixel of the first step that last lay in the buffer's last slot. |
| `GaussianBlur.GaussianWithin` | c_components/lib/convolution.c:363-407 | No channel leaves the range it had, so one colour stays one colour, for both parities. |
| `GaussianBlur.OddGaussianMirrors` | c_components/lib/convolution.c:387-391 | For an odd diameter the blur commutes with mirroring. |
| `KernelConvolve.AverageAround` | c_components/lib/convolution.c:160-198 | The average is the kernel sum of original pixels, in the border over those present from column 1 on divided by their weight, be it zero. |
| `KernelConvolve.DelayChosen` | c_components/lib/convolution.c:200-211 | The average is delayed, or the original pixel when the change lies outside the thresholds. |
| `KernelConvolve.ConvolveRow` | c_components/lib/convolution.c:118-217 | The row becomes the convolution of the original row; a row less than half as wide as the kernel is left alone. |
| `KernelSpec.InteriorIsKernelSum` | c_components/lib/convolution.c:191-198 | With zero thresholds every pixel the kernel fits around is the plain kernel sum of the original row. |
| `KernelSpec.OnePixelConvolved` | c_components/lib/convolution.c:191-198 | With zero thresholds a single pixel gives every pixel around which the kernel fits the tap that lies on it, times its value. |
| `KernelSpec.ThresholdsDecide` | c_components/lib/convolution.c:203-212 | Without thresholds a pixel always becomes its average; with them only when the change lies between them, both included. |
| `KernelSpec.ChangeOfAll` | c_components/lib/convolution.c:203-206 | The change of a pixel adds up over its channels. |
| `KernelSpec.OneColourStays` | c_components/lib/convolution.c:159-212 | A kernel of total one leaves one colour as it is, border and thresholds included. |
| `KernelSpec.BorderSkipsFirstColumn` | c_components/lib/convolution.c:171-178 | In the border column 0 counts for nothing, whatever its value. |
| `KernelSpec.BorderIsMean` | c_components/lib/convolution.c:166-180 | A border average is the mean over all taps present if and only if the kernel does not reach column 0 or gives it no weight, or column 0 holds just that average. |
| `ConvolutionKernel.PositiveDivides` | c_components/lib/convolution.c:166-180 | With positive taps no border weight vanishes in any row the convolution accepts. |
| `ConvolutionKernel.Normalize` | c_components/lib/convolution.c:80-89 | Scales the taps to the desired total; a kernel of total zero stays. |
| `ConvolutionKernel.Sharpen` | c_components/lib/convolution.c:100-116 | Negates the taps, raises the centre by twice the total, and normalises. |
| `ConvolutionKernel.NormalizedTotal` | c_components/lib/convolution.c:80-89 | A normalised kernel has the desired total. |
| `ConvolutionKernel.SharpenedTotal` | c_components/lib/convolution.c:104-113 | Sharpening keeps total and symmetry. |
| `ConvolutionKernel.CreateNormalized` | c_components/lib/convolution.c:90-98 | A symmetric kernel of total one whose taps are the bell's over its total; a bell of total zero stays. |
| `ConvolutionKernel.CreateSharpen` | c_components/lib/convolution.c:100-116 | A symmetric kernel of total one: the negative of the normalised bell and two more in the centre; a bell of total zero is negated. |
| `PictureSpec.TransposedTwice` | c_components/lib/convolution.c:674-690 | Transposing back gives the picture. |
| `PictureSpec.FlippedTwice` | c_components/lib/compositing.c:121-278 | Both flips are involutions and commute. |
| `PictureSpec.TransposeTurnsFlip` | c_components/lib/convolution.c:621-672 | Transposing after a horizontal flip is a vertical flip after transposing. |
| `BitmapTransform.Transpose4x4` | c_components/lib/convolution.c:505-517 | Sixteen words move to their transposed places and nothing else changes. |
| `BitmapTransform.TransposeBlock` | c_components/lib/convolution.c:526-532 | The tiles of one block. |
| `BitmapTransform.TransposeBlocks` | c_components/lib/convolution.c:519-535 | All blocks, whatever part of the last ones lies beyond the cropped size. |
| `BitmapTransform.TransposeCropped` | c_components/lib/convolution.c:650-669 | Blocks and remainder copies together transpose every word of the picture and touch no other. |
| `BitmapTransform.TransposeSlow` | c_components/lib/convolution.c:674-705 | Succeeds exactly for matching shapes and three or four bytes to a pixel, with the plain transpose and padding kept. |
| `BitmapTransform.Transpose` | c_components/lib/convolution.c:621-672 | The plain transpose for all dimensions; succeeds exactly for matching shapes, supported formats and, for four bytes, strides of multiples of eight; otherwise nothing changes. |
| `BitmapTransform.FlipVertical` | c_components/lib/compositing.c:121-140 | Rows change places top to bottom, padding kept; without memory nothing changes. |
| `BitmapTransform.ReverseRow` | c_components/lib/compositing.c:147-155 | Pointers moving inwards reverse the picture's part of a row. |
| `BitmapTransform.FlipHorizontal` | c_components/lib/compositing.c:142-278 | Every row is reversed, padding kept. |
| `Orientation.OrientedPixel` | imageflow_core/src/flow/nodes/rotate_flip_transpose.rs:47-59 | The chain of nodes for each orientation flag moves every pixel to the row and column that orientation means. |
| `Orientation.OrientedBack` | imageflow_core/src/flow/nodes/rotate_flip_transpose.rs:47-59 | Every orientation is undone by one orientation: 6 and 8 by each other, the rest by themselves. |
| `Orientation.QuarterTurns` | imageflow_core/src/flow/nodes/rotate_flip_transpose.rs:201-275 | Two quarter turns are the half turn, two half turns are none, and the two quarter turns undo each other. |
| `Halving.SumTaps` | c_components/lib/scaling.c:310-344 | Adding two, three or four taps at once is adding them one by one. |
| `Halving.AddSpread` | c_components/lib/scaling.c:288-308 | Adds a whole block row for each byte of a pixel. |
| `Halving.HalveRow` | c_components/lib/scaling.c:282-345 | Every byte of the row buffer gains the bytes of its block's row; for divisor 2 and an even count the pixels are paired, for divisor 1 nothing is added. |
| `Halving.GatherBlockRows` | c_components/lib/scaling.c:374-378 | The buffer holds the sums of the blocks of one output row. |
| `Halving.WritesStayBehind` | c_components/lib/scaling.c:428-438 | In place, rows written so far never reach the block rows still to be read. |
| `Halving.HalveRows` | c_components/lib/scaling.c:374-403 | The memory afterwards, all of it, when source and target are different or the same. |
| `Halving.HalveInternal` | c_components/lib/scaling.c:347-408 | Succeeds exactly with memory, equal formats and three or four bytes to a pixel; otherwise no byte changes. |
| `Halving.Halve` | c_components/lib/scaling.c:412-426 | Into another bitmap. |
| `Halving.HalveInPlace` | c_components/lib/scaling.c:428-447 | In its own memory; width, height and stride change even when it fails. |
| `HalvingSpec.SamePictureAnywhere` | c_components/lib/scaling.c:412-447 | Halving in place and into any other memory at any stride give the same picture. |
| `HalvingSpec.ByteInRow` | c_components/lib/scaling.c:282-345 | The bytes of a block lie in the source rows. |
| `HalvingMeans.ShiftDivides` | c_components/lib/scaling.c:381-393 | Shifting by the logarithm of a power of two is dividing by it. |
| `HalvingMeans.StoredIsSquare` | c_components/lib/scaling.c:365 | The divisor's square is kept whole in sixteen bits if and only if the divisor is at most 255. |
| `HalvingMeans.LoweredDivides` | c_components/lib/scaling.c:365-402 | Shift and division agree for every divisor whose stored square is not zero. |
| `HalvingMeans.RowsWrap` | c_components/lib/scaling.c:272-345 | The sixteen-bit sum is the exact sum modulo 65536. |
| `HalvingMeans.ExactMean` | c_components/lib/scaling.c:347-408 | For divisors 3 to 16, and 2 with an odd output width, every byte is the floor of the mean of its block. |
| `HalvingMeans.OneByteHalved` | c_components/lib/scaling.c:347-408 | For those divisors a single source byte gives its share to its channel of the one output pixel whose block it lies in and nothing to any other. |
| `HalvingMeans.OnlyExactMean` | c_components/lib/scaling.c:282-408 | For every other divisor whose stored square is not zero some bitmap of any size gives a byte that is not that mean. |
| `HalvingMeans.PairedMean` | c_components/lib/scaling.c:310-316 | With divisor 2 and an even output width odd pixels are the mean of the block one source pixel further left. |
| `HalvingMeans.OneValueStays` | c_components/lib/scaling.c:347-408 | A bitmap of one value keeps it for divisors 2 to 16. |
| `HalvingLight.LightMean` | c_components/lib/scaling.c:135-264 | In linear light divisors 3 to 255, and 2 with an odd width, take the mean of the block's light. |
| `HalvingLight.OnlyLightMean` | c_components/lib/scaling.c:135-264 | For every other divisor some light and some bitmap of any size give a byte that is not that of the mean; from 256 on because the square is cut to sixteen bits. |
| `HalvingLight.SquaresCut` | c_components/lib/scaling.c:220 | At divisor 256 nothing is left to divide by, at 257 the light is divided by 513 instead of 66049. |
| `HalvingLight.OneLightStays` | c_components/lib/scaling.c:135-264 | In linear light one value becomes what its own light turns back into, for divisors 2 to 255. |
| `HalvingBitmaps.HalvedHoldsMeans` | c_components/lib/scaling.c:412-447 | In either working space, whenever means are taken at all, each channel of each pixel is the mean of its block of the old memory, and bytes of no pixel stay. |
| `HalvingBitmaps.HalveBitmap` | c_components/lib/scaling.c:412-426 | A bitmap halved into another holds the means of its blocks, as bytes or as light; without memory, for unequal or unsupported formats nothing changes. |
| `HalvingBitmaps.HalveBitmapInPlace` | c_components/lib/scaling.c:428-447 | The same in place, packed to the new stride; the size changes even when it fails. |
| `EdgeDetection.LocalBounds` | c_components/lib/trim_whitespace.c:256-296 | The local box of a neighbourhood lies in it. |
| `EdgeDetection.LocalHasRowEdge` | c_components/lib/trim_whitespace.c:259-277 | Neighbours in a row that differ by more than the threshold put their edge and row in the local box. |
| `EdgeDetection.LocalHasColumnEdge` | c_components/lib/trim_whitespace.c:278-296 | Likewise neighbours in a column. |
| `EdgeDetection.FlatFindsNothing` | c_components/lib/trim_whitespace.c:244-251 | In an image of one grey the box never changes. |
| `EdgeResponse.ResponseTurns` | c_components/lib/trim_whitespace.c:245-249 | Exchanging rows and columns, or left and right, keeps the response of a neighbourhood. |
| `EdgeResponse.PixelResponds` | c_components/lib/trim_whitespace.c:245-249 | In a flat neighbourhood one pixel that differs by v responds 6v at a corner, 10v at a side, and 0 in the middle. |
| `EdgeResponse.StepResponds` | c_components/lib/trim_whitespace.c:245-249 | A neighbourhood whose columns, or rows, are each of one grey responds sixteen times the difference of the outer two. |
| `EdgeResponse.ResponseShifts` | c_components/lib/trim_whitespace.c:245-249 | Brightening, darkening or inverting a neighbourhood keeps its response. |
| `EdgeResponse.LocalIs` | c_components/lib/trim_whitespace.c:256-296 | Each side of the local box in both directions: the outermost edge between neighbours, or the outermost row or column with one. |
| `EdgeResponse.LocalTurns` | c_components/lib/trim_whitespace.c:256-296 | The local box turns and mirrors with its neighbourhood. |
| `ScanWindows.SquareSideIsRoot` | c_components/lib/trim_whitespace.c:373-374 | The side of square windows is the root of the buffer's size, rounded up. |
| `ScanWindows.WindowsFitBuffer` | c_components/lib/trim_whitespace.c:371-377 | Windows of a region at least 3 by 3 are at least 3 by 3, fit 2048 bytes, and are as wide and as high as the limits allow. |
| `ScanWindows.SnappedInImage` | c_components/lib/trim_whitespace.c:326-348 | Regions lie in the image and run forward, whatever edge and box. |
| `ScanWindows.PlannedWindowSound` | c_components/lib/trim_whitespace.c:382-428 | After narrowing and shifting every scanned window is at least 3 by 3, inside the image and fits the buffer, and no difference went below zero. |
| `ScanWindows.ExcludedAddsNothing` | c_components/lib/trim_whitespace.c:390-396 | A window skipped because it lies between the known sides could not have changed the box. |
| `ScanWindows.WindowsCover` | c_components/lib/trim_whitespace.c:376-388 | Every inner pixel of a region is the centre of a neighbourhood in one of the overlapping windows. |
| `ContentSearch.LocateEdges` | c_components/lib/trim_whitespace.c:254-296 | The two loops compute the local box. |
| `ContentSearch.SearchInfo.constructor` | c_components/lib/trim_whitespace.c:77-92 | The search starts with an empty box. |
| `ContentSearch.SearchInfo.FillBuffer` | c_components/lib/trim_whitespace.c:140-211 | A window inside the image is never refused, and the buffer holds its grey values row by row. |
| `ContentSearch.SearchInfo.Examine` | c_components/lib/trim_whitespace.c:249-315 | The box grows by the edges around one pixel exactly when its response exceeds the threshold. |
| `ContentSearch.SearchInfo.SobelScharrDetect` | c_components/lib/trim_whitespace.c:219-321 | The box takes in the edges of the detections centred in the window, one after the other, and nothing else. |
| `ContentSearch.SearchInfo.PlaceWindow` | c_components/lib/trim_whitespace.c:382-388 | The default window of a cell of the grid. |
| `ContentSearch.SearchInfo.NarrowWindow` | c_components/lib/trim_whitespace.c:390-408 | The window cut to what lies beyond a known side, or skipped. |
| `ContentSearch.SearchInfo.ShiftWindow` | c_components/lib/trim_whitespace.c:410-428 | The window moved back inside the image. |
| `ContentSearch.SearchInfo.ScanWindow` | c_components/lib/trim_whitespace.c:382-437 | One window is left out, or narrowed, moved and scanned; it is never refused. |
| `ContentSearch.Widen` | c_components/lib/trim_whitespace.c:356-363 | Widening ends, with a range long enough or as long as the image, a step to either side at a time. |
| `ContentSearch.SearchInfo.CheckRegion` | c_components/lib/trim_whitespace.c:323-441 | Never fails; the box becomes what scanning the region's grid makes of it. |
| `ContentSearch.CheckRegions` | c_components/lib/trim_whitespace.c:443-453 | The same over any list of regions. |
| `ContentSearch.SearchAll` | c_components/lib/trim_whitespace.c:95-121 | Strips first, then either everything or the first four strips again, by the area the strips left. |
| `ContentSearch.DetectContent` | c_components/lib/trim_whitespace.c:64-139 | The result is a function of the grey values: the whole of a small or blank image, else what strips and second scan find. |
| `ContentSearch.GreyIs` | c_components/lib/trim_whitespace.c:160-217 | The greys of pure blue, green and red, of black and white, and of white at every transparency. |
| `ContentSearch.PictureRectangle` | c_components/lib/trim_whitespace.c:64-217 | In a picture of one colour within a rectangle and another around it, greys further apart than the threshold, the content is the rectangle, when it takes in the middle and keeps two pixels from the sides. |
| `ContentScan.Examined` | c_components/lib/trim_whitespace.c:249-315 | The box takes in a pixel's edges exactly when its response exceeds the threshold. |
| `ContentScan.RowsHave` | c_components/lib/trim_whitespace.c:219-321 | After a window was scanned the box holds the edges of every detection centred in it. |
| `ContentScan.NarrowedKeepsNear` | c_components/lib/trim_whitespace.c:390-428 | A centre that narrowing leaves out has its edges within two pixels of the box, which reaches the centre itself; without narrowing none is left out. |
| `ContentScan.NarrowingTight` | c_components/lib/trim_whitespace.c:390-408 | Two pixels is no overestimate: some centre left out has its neighbourhood reach that far. |
| `ContentScan.WindowHas` | c_components/lib/trim_whitespace.c:382-437 | No detection in a window is lost by more than two pixels, none at all if the window is left out or not narrowed, and the box reaches every one. |
| `ContentScan.AfterRegion` | c_components/lib/trim_whitespace.c:323-441 | Scanning a region lets the box grow by detections alone and keeps it in the image. |
| `ContentScan.RegionHas` | c_components/lib/trim_whitespace.c:323-441 | Whatever region is scanned, no detection in it ends up more than two pixels outside the box; none is missed in a region as wide as the image when one window spans it. |
| `ContentScan.RegionReaches` | c_components/lib/trim_whitespace.c:323-441 | In a region as it is scanned, made wide enough, the box comes to reach the centre of every detection. |
| `ContentScan.RegionsHave` | c_components/lib/trim_whitespace.c:443-453 | After a list of regions no detection that any of them looked at ends up more than two pixels outside the box. |
| `ContentScan.Found` | c_components/lib/trim_whitespace.c:95-121 | What the whole search finds has grown from the empty box to what the strips left and on, by detections alone, in the image. |
| `ContentScan.EverythingFound` | c_components/lib/trim_whitespace.c:102-110 | When the strips leave more than the image's area, every detection in an image of any size lies within the box or at most two pixels outside; in up to 292 columns it lies within. |
| `ContentScan.AreaOutsideIs` | c_components/lib/trim_whitespace.c:102-105 | The area that decides between the two second scans counts what lies outside the box, corners twice, and in images that are not square is off by a product given exactly. |
| `ContentScan.NothingFoundIff` | c_components/lib/trim_whitespace.c:95-129 | The search ends with nothing found if and only if there is nothing to detect anywhere in the image. |
| `ContentScan.FlatImageIsWhole` | c_components/lib/trim_whitespace.c:123-129 | An image of one grey is all content. |
| `ContentRectangle.EdgesInside` | c_components/lib/trim_whitespace.c:251-296 | In an image of a rectangle, its greys further apart than the threshold, whatever is detected has its edges in the rectangle. |
| `ContentRectangle.UprightDetected` | c_components/lib/trim_whitespace.c:245-315 | A step from column to column above the threshold is detected, with the step itself in the edges over three rows. |
| `ContentRectangle.LevelDetected` | c_components/lib/trim_whitespace.c:245-315 | Likewise a step from row to row. |
| `ContentRectangle.StepFound` | c_components/lib/trim_whitespace.c:102-110 | When everything is searched every step above the threshold is in the box, in images of more than 292 columns give or take two pixels. |
| `ContentRectangle.RectangleFound` | c_components/lib/trim_whitespace.c:64-139 | In an image of a rectangle that takes in the middle each side two pixels or more from the image's is found exactly, and with all four the content is the rectangle. |
| `BlockSpec.TablesFit` | c_components/lib/codecs_jpeg_idct_fast.c:304-2228 | The entries of every table of taps total a power of two and stay in the block. |
| `BlockSpec.OneValueScales` | c_components/lib/codecs_jpeg_idct_fast.c:304-2228 | A block of one sample value gives that value, looked up. |
| `BlockSpec.TransposedScales` | c_components/lib/codecs_jpeg_idct_fast.c:304-2228 | Scaling a transposed block gives the transposed pixels. |
| `BlockSpec.RoundedNearest` | c_components/lib/codecs_jpeg_idct_fast.c:345-348 | The rounded mean is the nearest integer to the double sum over the total, halves up. |
| `BlockSpec.PlainPixelClamps` | c_components/lib/codecs_jpeg_idct_fast.c:304-1646 | A pixel of the plain scalers is the rounded mean clamped to a byte if and only if that mean is below 256 or leaves 255 modulo 256 or reaches 4096: the clamp sits at 4096. |
| `BlockSpec.BytePixelClamps` | c_components/lib/codecs_jpeg_idct_fast.c:304-2228 | For blocks of bytes a pixel of the plain scalers is the clamped mean if and only if the mean is below 256. |
| `BlockSpec.RingingWraps` | c_components/lib/codecs_jpeg_idct_fast.c:304-1646 | In each of the 5 by 5 to 7 by 7 scalers a pixel whose mean is 263 or 271 comes out as its low byte. |
| `BlockSpec.OnlySmallScalersClamp` | c_components/lib/codecs_jpeg_idct_fast.c:304-2228 | Every pixel of every block of bytes is the clamped mean if and only if the scaler is 4 by 4 or smaller. |
| `BlockSpec.NonNegativeTables` | c_components/lib/codecs_jpeg_idct_fast.c:304-2228 | The tables for 1 to 4 have no negative weights, those for 5 to 7 have some. |
| `BlockSpec.SmallScalersWithin` | c_components/lib/codecs_jpeg_idct_fast.c:1661-2228 | 1 by 1 to 4 by 4: every pixel is the rounded mean and lies between the block's least and greatest sample. |
| `BlockSpec.LutIndex` | c_components/lib/codecs_jpeg_idct_fast.c:2291-2292 | The colour table is never indexed outside its 4096 entries. |
| `BlockPlacement.PixelIsMean` | c_components/lib/codecs_jpeg_idct_fast.c:304-2228 | Every pixel of every scaler is the rounded mean of all 64 samples, looked up, with the parts that each sample row and column gives to each pixel listed apart from the taps. |
| `BlockPlacement.SingleSample` | c_components/lib/codecs_jpeg_idct_fast.c:304-2228 | A block with a single nonzero sample gives every pixel the parts of its row times the parts of its column. |
| `BlockPlacement.MirroredScales` | c_components/lib/codecs_jpeg_idct_fast.c:304-2228 | Mirroring a block left to right or top to bottom mirrors its pixels, in every scaler. |
| `BlockPlacement.AscendingScales` | c_components/lib/codecs_jpeg_idct_fast.c:1661-4305 | In the scalers up to 4 by 4 a block that ascends along its rows gives pixels that do, by any ascending table. |
| `BlockPlacement.EdgeOvershoots` | c_components/lib/codecs_jpeg_idct_fast.c:304-1646 | From 5 by 5 on the block of 0 in its first column and 200 in the others gives 203 and then 200. |
| `BlockPlacement.OnlySmallScalersKeepOrder` | c_components/lib/codecs_jpeg_idct_fast.c:304-2228 | Every ascending block of bytes gives ascending pixels if and only if the scaler is 4 by 4 or smaller. |
| `BlockScaler.DownFits` | c_components/lib/codecs_jpeg_idct_fast.c:331-340 | Weighted samples and their partial sums stay in 32 bits. |
| `BlockScaler.AcrossFits` | c_components/lib/codecs_jpeg_idct_fast.c:343-347 | Weighted column sums and their partial sums stay in 32 bits. |
| `BlockScaler.WeighRows` | c_components/lib/codecs_jpeg_idct_fast.c:331-334 | The scratch array holds the weighted samples of an output row. |
| `BlockScaler.SumColumns` | c_components/lib/codecs_jpeg_idct_fast.c:335-341 | The scratch array holds their column sums. |
| `BlockScaler.ScalePixel` | c_components/lib/codecs_jpeg_idct_fast.c:342-348 | One output pixel is the finished double sum; the column sums are kept for the next. |
| `BlockScaler.ScaleBlock` | c_components/lib/codecs_jpeg_idct_fast.c:304-866 | Every pixel of every output row, and nothing else in the output. |
| `BlockScaler.ScaleSpatial` | c_components/lib/codecs_jpeg_idct_fast.c:304-2228 | The plain scalers for 1 to 7. |
| `BlockScaler.ScaleSpatialSrgb` | c_components/lib/codecs_jpeg_idct_fast.c:2243-4305 | The colour-aware scalers for 1 to 7, between two tables. |
| `BlockScaler.OneByteScales` | c_components/lib/codecs_jpeg_idct_fast.c:2243-4305 | A block of one byte value gives that byte, or what its linear value is turned back into. |
| `BlockScaler.BytesStayIff` | c_components/lib/codecs_jpeg_idct_fast.c:2243-2298 | The colour-aware scalers keep every block of one byte value if and only if the two tables undo each other on all bytes. |
| `IccProfile.Check` | c_components/lib/codecs_jpeg.c:106-126 | The first pass accepts exactly chunks that agree on their count and carry distinct numbers within it. |
| `IccProfile.CheckChunk` | c_components/lib/codecs_jpeg.c:110-122 | A chunk is refused exactly for a different count, a number of zero or beyond the count, or one seen before. |
| `IccProfile.Place` | c_components/lib/codecs_jpeg.c:132-138 | The second pass accepts exactly complete sets and lays the parts one behind the other. |
| `IccProfile.Fill` | c_components/lib/codecs_jpeg.c:149-162 | The third pass leaves the parts in order of their numbers. |
| `IccProfile.ReadIccProfile` | c_components/lib/codecs_jpeg.c:59-168 | A profile written into 1 to 255 markers, mixed with any others in any order, is read back whole, unless it is empty or memory is lacking; a file that does not carry the markers of one profile gives none. |
| `IccProfile.AnyOrder` | c_components/lib/codecs_jpeg.c:87-168 | Completeness and profile do not depend on the order of the markers. |
| `IccProfile.SplitAndBack` | c_components/lib/codecs_jpeg.c:87-168 | Splitting a profile into 1 to 255 parts and reassembling them in any order gives the profile. |
| `IccProfile.MixedCarries` | c_components/lib/codecs_jpeg.c:63-168 | Markers of a profile mixed with any that are not of that kind, in any order, are a file that carries it. |
| `IccProfile.CarriedIs` | c_components/lib/codecs_jpeg.c:63-168 | The chunks of a file that carries the markers of a profile's parts are complete and make up the parts joined. |
| `IccProfile.CompleteCarries` | c_components/lib/codecs_jpeg.c:63-138 | A file whose chunks are complete carries the markers of some profile's parts and no other profile marker. |
| `OutputBuffer.Buffer.Write` | c_components/lib/io.c:96-132 | Writes over and past what is there at the cursor, growing the memory; no data is an error that changes nothing. |
| `OutputBuffer.Grown` | c_components/lib/io.c:103-112 | The new capacity holds what is needed, is half as large again and at least 4096, and is the least such capacity, give or take a byte. |
| `OutputBuffer.WrittenIs` | c_components/lib/io.c:96-132 | Writing leaves the bytes before the cursor and behind the data as they were, the data between, and the cursor behind it. |
| `OutputBuffer.Buffer.Seek` | c_components/lib/io.c:52-65 | Moves the cursor exactly within what was written. |
| `OutputBuffer.Buffer.Read` | c_components/lib/io.c:72-94 | Reads as much as there is, or only passes it. |
| `OutputBuffer.Perform` | c_components/lib/io.c:52-132 | Any run of calls does to the buffer what it does to a byte sequence with a cursor, the cursor never past the written area nor that past the memory. |
| `OutputBuffer.WrittenTwice` | c_components/lib/io.c:96-132 | Writing twice is writing once. |
| `OutputBuffer.ReadsBack` | c_components/lib/io.c:72-132 | What was written is read back from where it was written. |
| `OutputBuffer.WritesAppend` | c_components/lib/io.c:96-132 | Writes alone leave their data in order. |
| `JpegDestination.Destination.constructor` | c_components/lib/codecs_jpeg_io.c:26-34 | The encoder starts with an empty buffer of 4096 bytes. |
| `JpegDestination.Destination.EmptyOutputBuffer` | c_components/lib/codecs_jpeg_io.c:38-62 | A full buffer is flushed whole and starts again. |
| `JpegDestination.Destination.Emit` | c_components/lib/codecs_jpeg_io.c:36-62 | Every byte emitted is in the output or in the buffer, in order. |
| `JpegDestination.Destination.Terminate` | c_components/lib/codecs_jpeg_io.c:65-87 | After the last flush the output holds exactly what was emitted. |
| `JpegDestination.Encode` | c_components/lib/codecs_jpeg_io.c:26-87 | For any bytes, through however many flushes. |
| `JpegSource.Source.Init` | c_components/lib/codecs_jpeg_io.c:90-96 | Before each image the first read may again find nothing. |
| `JpegSource.Source.FillInputBuffer` | c_components/lib/codecs_jpeg_io.c:100-136 | Gets at least one more byte of the stream; an error exactly when nothing was read and nothing is left. |
| `JpegSource.Source.SkipInputData` | c_components/lib/codecs_jpeg_io.c:139-154 | Skips exactly that many bytes through any refills, from an empty buffer or past the end, and ends. |
| `JpegSource.Source.TakeByte` | c_components/lib/codecs_jpeg_io.c:100-136 | The next byte is the next of the file followed by 0xFF 0xD9 pairs. |
| `JpegSource.TakeBytes` | c_components/lib/codecs_jpeg_io.c:100-154 | Reading gets the file's bytes and then such pairs for ever, however reads are split. |

## Left out

- Floating-point rounding, `fastapprox.h` and the filters themselves: values are
  exact reals and filters arbitrary functions.
- Widths of integers where the model says nothing of them: `size_t` and
  `uint32_t` sizes, strides and products are unbounded, as is the cast of a
  scan region's bounds or of a blur's diameter to `int`.
- Files and line numbers kept in allocation records, the heap function table,
  and `flow_deprecated_free`; `calloc` is `malloc` of the product.
- Destructors that call back into the tracker.
- ObjectTracker.Tracker.Realloc: what becomes of the table after an object with
  children has moved is not followed further, since the state is no longer valid.
- ObjectTracker.Tracker.SetOwner: likewise after an unsound hand-over.
- ObjectTracker.Tracker.Destroy: destroying the context itself, which also frees
  the record table and the log.
- The share of negative weights that `flow_interpolation_line_contributions_create`
  reports, and the weight slices of all rows lying in one array.
- RowCache.Render: models four channels; the fourth channel of opaque rows is
  never loaded by the code. Colour conversion of source rows and compositing of
  the result are not part of this model.
- SlotTags.SpansFitNeverFull: a longer sequence with windows further apart may still
  find slots, when rows between them made room; which do is not followed further.
- CubicFilters.BuiltInNeverFull: the built-in filters made of sines and Bessel
  functions (Lanczos, sinc, Ginseng, Jinc) are covered only by what holds for any
  filter, since their values are not modelled.
- BoxBlur.BoxBlurRow: models one row with all its channels; further rows repeat
  it on other pixels.
- BoxBlur.MisalignedRow: models one row; with several rows the stale pixel comes
  from the row before. What radius 0 gives, where the code reads outside the row,
  is not modelled.
- GaussianBlur.GaussianRow: models a call for one row, where the blurs follow
  each other on that row; and rows of three or more pixels, since shorter ones
  have diameter 0.
- KernelConvolve.ConvolveRow: what a division by a border weight of zero gives is
  a parameter, compared with the thresholds like a number. The row holds the convolved channels only; others
  are neither read nor written. The second wrap mode is switched off in the code.
- The bell curve of `flow_convolution_kernel_create_guassian`: any function of
  the distance.
- BitmapTransform.Transpose: cells are whole pixels, so the bytes of a stride
  that hold no whole pixel do not appear.
- Sharpening of rows and block edges, `fill_rect`, copying, bitmap creation and
  cropping: easy members.
- Halving.HalveRow: the unrolled loops for three and four bytes are one loop over
  the bytes of a pixel.
- HalvingMeans.IsPowerOfTwo is defined by halving instead of by the bit trick of
  `c_components/lib/math_functions.h:59`.
- ContentSearch.DetectContent: after the second round of strips nothing is said of
  detections that no strip looked at.
- HalvingLight.LinearLight: what light divided by zero becomes is a parameter.
- The inverse cosine transform in front of the block scalers, and the contents of
  the two colour tables.
- BlockScaler.ScaleBlock: the generated code is one routine per size, unrolled;
  the model is one loop nest over the table of taps.
- Reading the EXIF orientation from a file; the orientation nodes are modelled
  from the flag on.
- Read errors of the underlying file, failing writes, and running out of memory
  in the output buffer.
- File and fixed-memory streams, libjpeg, libpng and lcms2 calls, PNG coding,
  the JSON interface, the graph engine apart from the orientation nodes, error
  codes and colour names: foreign code, plumbing, or finite tables.
