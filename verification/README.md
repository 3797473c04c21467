# fastfetch: sixel quantiser, logo printer, argument passes

A Dafny model of four parts of fastfetch, with the properties that their callers rely on.

**The sixel quantiser** (`src/3rdparty/sixel/quant.c`, `dither.c`) turns an RGB image into a palette
and one index per pixel.  The model follows the source loop by loop over arrays; each method is proved
against a function on values, and the theorems are about those functions.

- `Colors`, `Histogram`: the 15-bit buckets and the sampled, saturating histogram.
- `Sorting`, `Boxes`, `Planes`, `MedianCut`: median cut over one table that is re-sorted in place, and a
  box vector that is re-sorted after every split.  `CutRun` describes runs; the invariant is proved for
  every reachable arrangement.
- `ColorMap`, `Palette`: the representatives and the palette made from an image.
- `Lookup`: the exact and the cached nearest-colour search, and how far the cached one may be off.
- `Diffusion`, `Impulses`, `Conservation`: the five kernels as lists of taps, what each neighbour of a pixel
  receives, and how much error is passed on.
- `Scan`, `ScanProperties`, `CacheProperties`, `SelfConsistency`: the raster scan as a state machine and
  what holds over a whole scan, or over repeated calls.
- `Compaction`, `ApplyPalette`: the two branches of `sixel_quant_apply_palette`.
- `Dither`: the dither object, and the error bound from image to picture.
- `FirstUses`, `CArithmetic`: first-use order and counts; C's truncating division and saturating stores.

**The pixel unpacker** (`PixelFormat`): `expand_palette` and its inverse.

**The logo printer** (`src/logo/logo.c`).  `LogoText` reads bytes as a terminal does: control sequences by
section 5.4 of ECMA-48, and UTF-8 characters.  `LogoLines` is the parser from text to cached lines,
`LogoReader` its loops, `LogoInstance` the object with the cache and the printing methods.  `LogoSteps` and
`LogoSequences` say how well-formed texts are taken apart, `LogoLayout` and `LogoPlaceholders` when the
layout is independent of colours, `LogoColumns` when the recorded widths are right, `LogoPictures` and
`LogoColors` what the cached lines show and in which colours.  `Screens` is a terminal; `LogoPrinter`,
`LogoRounds`, `LogoErase` and `LogoWatch` say what is on it after any number of `--watch` rounds.

**The argument passes** (`Arguments`): the command line is read twice, and the first pass blanks what it
has handled.

## Where the code differs from what it seems to do

- `quant.c:1289-1295` guards widths below 2 and takes that to be enough, as it is against underflow.  It is
  not enough for the picture: at width 2 the Jarvis-Judice-Ninke, Stucki and Burkes kernels, and at width 1
  the Atkinson kernel, write to the pixel that has just been answered, unless the image is too low for them
  to write at all.  `SelfConsistency.SelfConsistentIff` gives the exact condition on kernel and size, and
  `SelfConsistency.Inconsistent` an image for every size at which it fails.
- `logo.c:121-142` takes a control sequence to end one byte after its digits and semicolons.  Of a sequence
  with a private or intermediate byte, such as ESC `[?25l`, the rest is copied too but counted as columns, so
  the line is recorded wider than it is and `ffLogoPrintLine` pads it too little.
  `LogoColumns.RecordedWidthIsVisibleIff` gives the exact condition, `LogoColumns.HiddenCursorIsCounted` a text.
- `logo.c:144-176` treats an unknown placeholder such as `$x` differently with and without colours: printed
  in the one mode, dropped in the other.  `LogoPlaceholders.LinesAlikeIff` gives the exact condition.
- `fastfetch.c:822` clears the screen below a watch round so that shorter output leaves nothing of longer output.
  Once the logo is printed, the rows between the last module line and the end of the logo are only passed
  over, so module lines of the round before stay there.  `LogoErase.NoStaleLineIff` gives the exact condition,
  `LogoErase.StaleLine` what is left.
- The comment at `quant.c:905` gives the lower Floyd-Steinberg neighbour 5/48; the code gives it 5/16, and so
  does `Impulses.WeightAt`.

## Reading the contracts

- `Fits(job, s)` says that a scan's settings and buffers belong together; `ScanTo(job, s, n)` is its state
  after `n` pixels.  `CacheSound` is the cache invariant.
- `WellFormed` texts are C strings in which every ESC begins a complete control sequence of ECMA-48 and, when
  colours are replaced, every `$` that the parser reads as a placeholder stands before `$`, `1`-`9` or the end
  of a line.  `SgrColors` says that configured colours are parameter strings.
- A `Screen` neither scrolls nor wraps; its cells have no colours; `art` lists the logo lines written to
  it, and `plain` says that the colours were reset after the last text.
- `wcwidth` stands for `mk_wcwidth`; `command` for the keys that `parseCommand` handles, and `exits` for the
  calls that end the process, which may depend on the calls made so far.

## Model

| member | source | states |
|---|---|---|
| Colors.ComputeHash | src/3rdparty/sixel/quant.c:667-678 | The loop over the components yields the bucket number: five bits per component, first component on top |
| Colors.DecodeHash | src/3rdparty/sixel/quant.c:667-678 | Decoding a pixel's bucket gives each component rounded down to a multiple of 8 |
| Colors.SameBucket | src/3rdparty/sixel/quant.c:667-678 | Two colours share a bucket if and only if every component agrees after rounding down to a multiple of 8 |
| Colors.DecodeInjective | src/3rdparty/sixel/quant.c:755-764 | Different buckets give different tuples |
| Histogram.CountSample | src/3rdparty/sixel/quant.c:739-747 | One sample: its bucket is listed at its first occurrence, and its counter grows unless it is 65535 |
| Histogram.RebuildTuple | src/3rdparty/sixel/quant.c:758-761 | The tuple built for a bucket is the decoded bucket |
| Histogram.BuildTable | src/3rdparty/sixel/quant.c:755-764 | The table holds one entry per listed bucket, in list order |
| Histogram.ComputeHistogram | src/3rdparty/sixel/quant.c:681-775 | The table is one entry per distinct sampled bucket, in first-occurrence order, with value min(65535, occurrences) and the decoded tuple |
| Histogram.SampleOutside | src/3rdparty/sixel/quant.c:739-747 | The sampling loop stops after exactly the counted number of samples |
| Histogram.SamplesBounded | src/3rdparty/sixel/quant.c:701-716 | The number of samples is at most 2 * max_sample, for every image size |
| Histogram.SamplesOfQuality | src/3rdparty/sixel/quant.c:701-747 | In each quality mode, with its literal budget: the samples are pixels 0, n, 2n and so on to the end of the image, with n the pixels per budget or 1; an image of at least the budget gets between one and two budgets of samples |
| Histogram.AllPixelsSampled | src/3rdparty/sixel/quant.c:701-716 | Below 36766, 2236766 or 8006158 pixels, by quality mode, every pixel is sampled |
| Histogram.TableIsDistinct | src/3rdparty/sixel/quant.c:739-764 | No two entries have the same colour |
| Histogram.TableCovers | src/3rdparty/sixel/quant.c:739-764 | Every sampled colour has an entry with its components rounded down and a positive value |
| Histogram.TotalIsSampleCount | src/3rdparty/sixel/quant.c:744-746 | If no counter saturates the values add up to the number of samples |
| Histogram.LowQualityIsExact | src/3rdparty/sixel/quant.c:701-716 | In low quality mode no counter saturates and the values add up to the number of samples, for every image |
| Histogram.TotalFitsInt | src/3rdparty/sixel/quant.c:744-746 | The values of any sampled table add up to at most 32768 * 65535 < 2^31 |
| FirstUses.FirstUseOrder | src/3rdparty/sixel/quant.c:741-743 | The list that the reference map and the migration map build is ordered by first occurrence |
| FirstUses.CountAllFirstUse | src/3rdparty/sixel/quant.c:739-747 | The counts of the listed values add up to the number of samples |
| FirstUses.DistinctBounded | src/3rdparty/sixel/quant.c:741-743 | Distinct values below a bound are at most as many as the bound: neither map overflows |
| Sorting.QSort | src/3rdparty/sixel/quant.c:559-588 | `qsort` as its callers use it: the range becomes a sorted permutation of itself, the rest of the array is unchanged |
| Planes.FindBoxBoundaries | src/3rdparty/sixel/quant.c:269-296 | The least and the greatest value of each plane over the box |
| Planes.LargestByNorm | src/3rdparty/sixel/quant.c:300-318 | The first plane with the largest spread |
| Planes.LargestByLuminosity | src/3rdparty/sixel/quant.c:322-356 | The first plane with the largest luminosity-weighted spread (real arithmetic) |
| Planes.PositiveSpread | src/3rdparty/sixel/quant.c:270-318 | A box with two different colours has a positive spread in the plane that either method picks |
| Boxes.TilingPartitions | src/3rdparty/sixel/quant.c:498-593 | Boxes that tile the table cover every position exactly once |
| Boxes.SingletonTiling | src/3rdparty/sixel/quant.c:640-644 | If all boxes hold one colour there are as many boxes as colours |
| MedianCut.FindMedian | src/3rdparty/sixel/quant.c:568-578 | The cut is the first place at which the lower part has half of the samples; both parts are non-empty |
| MedianCut.StoreHalves | src/3rdparty/sixel/quant.c:581-587 | The box gives way to its halves, and the vector is sorted by descending sum |
| MedianCut.SplitBox | src/3rdparty/sixel/quant.c:497-593 | A split sorts the box by its widest plane, cuts at the median, moves only the entries of that box, leaves all other boxes alone, keeps the invariant; an unknown method is refused without any change |
| MedianCut.FindSplittable | src/3rdparty/sixel/quant.c:640-642 | The first box with two or more colours, or the number of boxes if there is none |
| MedianCut.SplitsLargest | src/3rdparty/sixel/quant.c:639-644 | In a descending vector the box found first has the largest sum of all boxes with two or more colours |
| MedianCut.BoxSumBounded | src/3rdparty/sixel/quant.c:130-134 | In every arrangement the sum of a box is at most the total of the histogram, so it does not wrap |
| MedianCut.SumCompareOrders | src/3rdparty/sixel/quant.c:130-134 | For the boxes of a sampled histogram no cast and no difference of sumcompare leaves the range of int, and its sign is the order by descending sum |
| MedianCut.StepKeepsInv | src/3rdparty/sixel/quant.c:497-593 | One split keeps: permutation of the histogram, partition of the table, exact sums, descending order |
| MedianCut.RunKeepsInv | src/3rdparty/sixel/quant.c:597-653 | The median-cut invariant after any number of splits, over every run; after i splits there are i + 1 boxes |
| MedianCut.ReachableInv | src/3rdparty/sixel/quant.c:597-653 | Every reachable arrangement satisfies the invariant |
| MedianCut.SplitMakesProgress | src/3rdparty/sixel/quant.c:531-585 | For distinct colours, in every reachable arrangement the next split takes the box with the largest sum, along the first plane with the largest spread, or the largest one weighted 2989 : 5866 : 1145, which is positive; both halves are non-empty and ordered in that plane, and the lower one is the smallest with half of the samples if that leaves an upper one |
| MedianCut.AllSingletons | src/3rdparty/sixel/quant.c:640-644 | If no box can be split there is one box per colour |
| MedianCut.CutBoxes | src/3rdparty/sixel/quant.c:622-653 | The loop terminates with exactly min(newcolors, colours) boxes, in a reachable arrangement, with the table a permutation of the histogram |
| ColorMap.RepInsideBox | src/3rdparty/sixel/quant.c:361-441 | Each of the three representatives lies within the bounds of its box, plane by plane |
| ColorMap.CenterIsCentral | src/3rdparty/sixel/quant.c:361-382 | The centre is within ceil(spread / 2) of every colour of the box |
| ColorMap.RepOfTwo | src/3rdparty/sixel/quant.c:361-441 | Of two colours the centre and the mean of colours are the truncated midpoint, the mean of pixels weighs each by its samples |
| ColorMap.CenterBox | src/3rdparty/sixel/quant.c:360-382 | The midpoint of the least and the greatest value, per plane |
| ColorMap.AverageColors | src/3rdparty/sixel/quant.c:386-406 | The truncated mean of the colours, per plane |
| ColorMap.AveragePixels | src/3rdparty/sixel/quant.c:410-441 | The truncated mean weighted by the samples, saturated, per plane |
| ColorMap.ColormapFromBv | src/3rdparty/sixel/quant.c:445-494 | Entry i represents box i; entries past the boxes stay zero |
| ColorMap.Mediancut | src/3rdparty/sixel/quant.c:597-664 | Called with more colours than requested, every entry of the colour map is the representative of a box of a reachable arrangement: no zero default is left over |
| Palette.ComputeColorMapFromInput | src/3rdparty/sixel/quant.c:778-854 | The histogram's own colours if they fit, otherwise a median-cut palette of exactly the requested size; reports the number of histogram colours |
| Palette.MakePalette | src/3rdparty/sixel/quant.c:1184-1237 | The same as flat bytes, with its length |
| Palette.PaletteIsDim | src/3rdparty/sixel/quant.c:713-764 | Every component of every generated palette is at most 248 |
| Palette.PaletteInsideBoxes | src/3rdparty/sixel/quant.c:445-494 | Every palette colour lies within its own box's bounds; a centre is within ceil(spread / 2) of every colour of the box |
| Palette.DefaultIsCentral | src/3rdparty/sixel/quant.c:360-494 | With the widest plane and centres, every palette byte is the midpoint of its component over the box of a reachable arrangement, and within ceil(spread / 2) of that component of every colour of the box |
| Lookup.LookupNormal | src/3rdparty/sixel/quant.c:1046-1082 | The first nearest palette index |
| Lookup.LookupFast | src/3rdparty/sixel/quant.c:1086-1134 | A set entry answers; otherwise the first nearest index, which is stored plus one in the bucket of the pixel, and nothing else changes |
| Lookup.DistInBytes | src/3rdparty/sixel/quant.c:1061-1075 | The distance in bytes: complexion weighs the first component and no other |
| Lookup.GuardIsExact | src/3rdparty/sixel/quant.c:1362-1373 | The guard lets a call through if and only if no squared distance reaches INT_MAX |
| Lookup.DistInRange | src/3rdparty/sixel/quant.c:1061-1081 | Guarded distances and their partial sums stay in the range of int and strictly below INT_MAX, and are not negative for complexions of at least 0 |
| Lookup.FastLookupKeepsCacheSound | src/3rdparty/sixel/quant.c:1106-1133 | A cached lookup keeps the cache invariant and answers with the first nearest index of some colour of the pixel's bucket |
| Lookup.NeighbourIsNearlyNearest | src/3rdparty/sixel/quant.c:1087-1134 | A nearest colour of a probe in the same bucket exceeds the distance of any other colour by at most 14 times their weighted gap |
| Lookup.FastLookupIsNearlyNearest | src/3rdparty/sixel/quant.c:1086-1134 | For every pixel and sound cache the cached answer exceeds the optimum by at most 14 * sum of weight * |chosen - optimal|, hence by at most 3570 * (complexion + 2) |
| Lookup.BucketDiameter | src/3rdparty/sixel/quant.c:667-678 | Colours of one bucket are within 49 * (complexion + 2) |
| Lookup.WeakTriangle | src/3rdparty/sixel/quant.c:1061-1075 | Squared distances satisfy d(p, a) <= 2 d(p, q) + 2 d(q, a) |
| Lookup.CoveredNearest | src/3rdparty/sixel/quant.c:1046-1082 | A pixel whose bucket holds a palette colour is answered within 49 * (complexion + 2) |
| Lookup.CoveredFast | src/3rdparty/sixel/quant.c:1086-1134 | With a sound cache, within 196 * (complexion + 2) |
| Diffusion.ErrorDiffuse | src/3rdparty/sixel/quant.c:858-878 | One tap: a saturating addition of the truncated share to one byte |
| Diffusion.DiffuseFS | src/3rdparty/sixel/quant.c:895-917 | The four Floyd-Steinberg taps in order, under its border condition |
| Diffusion.DiffuseAtkinson | src/3rdparty/sixel/quant.c:920-947 | The six Atkinson taps |
| Diffusion.DiffuseJaJuNi | src/3rdparty/sixel/quant.c:950-977 | The twelve Jarvis-Judice-Ninke taps |
| Diffusion.DiffuseStucki | src/3rdparty/sixel/quant.c:980-1007 | The twelve Stucki taps |
| Diffusion.DiffuseBurkes | src/3rdparty/sixel/quant.c:1010-1031 | The seven Burkes taps |
| Diffusion.TapsInBounds | src/3rdparty/sixel/quant.c:895-1031 | Every write of every kernel lands inside the image, at every pixel where the kernel fires |
| Diffusion.CausalIff | src/3rdparty/sixel/quant.c:895-1031 | All writes land strictly after the current pixel if and only if the width is at least 1 (none, Floyd-Steinberg), 2 (Atkinson) or 3 (the others) |
| Impulses.FiresWhere | src/3rdparty/sixel/quant.c:895-1031 | The pixels at which each kernel writes: Floyd-Steinberg not in the last column and row, Atkinson not in the last two rows, the others if their furthest cell is inside the image |
| Impulses.ReceivedShare | src/3rdparty/sixel/quant.c:858-1031 | On images as wide as the kernel's table, each cell receives the error times its weight in the table, divided with truncation and added with saturation, and every other cell nothing |
| Impulses.StepReceives | src/3rdparty/sixel/quant.c:858-1031 | One step of the scan at any width, byte by byte and for all planes: the error is the byte of the pixel minus the byte of the colour drawn; each byte receives the shares of the taps that reach it, with saturation, and no other byte changes |
| Impulses.StepSpreadsError | src/3rdparty/sixel/quant.c:858-1031 | The same by the table of weights: a sum above 255 leaves 255, one below 0 leaves 0, any other is exact |
| Impulses.DepositByte | src/3rdparty/sixel/quant.c:858-878 | One tap changes one byte: to 0 below 0, to 255 above 255, and otherwise to the exact sum |
| Impulses.MethodSpreads | src/3rdparty/sixel/quant.c:1296-1336 | What each diffusion method adds to the right neighbour: 7/16, 1/8, 7/48, 8/48, 4/16 of the error, and nothing for the other methods |
| Conservation.KernelWeight | src/3rdparty/sixel/quant.c:895-1031 | The coefficients add up to 48/48 for Floyd-Steinberg, Jarvis-Judice-Ninke and Burkes, 42/48 for Stucki, 36/48 for Atkinson |
| Conservation.ErrorConserved | src/3rdparty/sixel/quant.c:895-1031 | For every integer error and truncating division: what is passed on never changes sign or exceeds the error; the full-weight kernels lose at most taps - 1, Stucki passes on 42/48 and Atkinson 36/48 up to rounding |
| Conservation.ScanConserves | src/3rdparty/sixel/quant.c:1461-1472 | Over any prefix of a scan in which nothing saturates, the total of each plane drifts from the initial total plus the errors handed on, byte of the buffer minus byte of the palette, by at most taps - 1 per diffusing pixel |
| Scan.RasterUnique | src/3rdparty/sixel/quant.c:1461-1464 | The loop variables are the coordinates of pos = y * width + x |
| ScanProperties.IndicesPrefix | src/3rdparty/sixel/quant.c:1461-1472 | Recorded indices are never revised |
| ScanProperties.PixelIsFinal | src/3rdparty/sixel/quant.c:1461-1472 | If no pixel writes to itself or to one before it, a pixel is final from the moment the scan reaches it |
| ScanProperties.QuietIsOrderly | src/3rdparty/sixel/quant.c:895-1031 | A kernel that does not fire at the first pixel of an image writes nowhere in it |
| ScanProperties.OrderlyScanIsSelfConsistent | src/3rdparty/sixel/quant.c:1461-1472 | Then, with the exact lookup, result[pos] is the first nearest index to the final buffer value at pos |
| ScanProperties.RecordedAnswer | src/3rdparty/sixel/quant.c:1461-1466 | The index at pos answers the colour that was looked up at pos |
| ScanProperties.CausalScanIsSelfConsistent | src/3rdparty/sixel/quant.c:1461-1472 | With causal writes and the exact lookup, result[pos] is the first nearest index to the final buffer value at pos |
| SelfConsistency.SelfConsistentIff | src/3rdparty/sixel/quant.c:1289-1321 | Self-consistency holds for every image of a size if and only if the width is at least 1 (none, Floyd-Steinberg), 2 (Atkinson) or 3 (the others), or the kernel does not fire at the first pixel |
| SelfConsistency.FiresIff | src/3rdparty/sixel/quant.c:920-1031 | At the narrow width the kernel fires at the first pixel if and only if there are at least 3 rows (Atkinson, Burkes) or 4 (Jarvis-Judice-Ninke, Stucki) |
| SelfConsistency.Inconsistent | src/3rdparty/sixel/quant.c:920-1031 | At every size at which the condition fails an image is answered with index 0 at its first pixel although the final value there is nearer to colour 1 |
| CacheProperties.CacheStaysSound | src/3rdparty/sixel/quant.c:1106-1133 | Every non-zero entry is 1 + the first nearest index for some colour of its bucket, at every step of the scan |
| CacheProperties.CacheIsMonotone | src/3rdparty/sixel/quant.c:1106-1133 | Entries are never changed once set |
| CacheProperties.SameBucketSameIndex | src/3rdparty/sixel/quant.c:1461-1466 | Pixels looked up in one bucket always get the same index, even while diffusion rewrites the buffer between them |
| CacheProperties.AnswersAreNearby | src/3rdparty/sixel/quant.c:1106-1133 | Every answer is in range and is the first nearest index of some colour of the pixel's bucket |
| CacheProperties.CacheOverCalls | src/3rdparty/sixel/dither.c:764-776 | From a zeroed table, after any number of calls with one palette and complexion, whatever their sizes, diffusion kernels and masks, all entries are sound and none set earlier has changed |
| CacheProperties.SameBucketAcrossCalls | src/3rdparty/sixel/dither.c:764-776 | From a zeroed table, pixels looked up in one bucket get the same index, in one call or in two calls that share the table, palette and complexion, with any calls before and between them |
| CacheProperties.CacheUntouched | src/3rdparty/sixel/quant.c:1046-1082 | A scan without the cached lookup leaves the table alone |
| ApplyPalette.ReadPixel | src/3rdparty/sixel/quant.c:1399-1403 | The stored pixel, or its masked and clamped copy |
| ApplyPalette.ChooseLookup | src/3rdparty/sixel/quant.c:1338-1360 | The threshold lookups only for two colours that are exactly black and white; otherwise `optimize` picks the cached lookup |
| ApplyPalette.SelectLookupIff | src/3rdparty/sixel/quant.c:1338-1360 | A threshold lookup is used if and only if the palette is black and white, in the one order or the other; otherwise the cached one if and only if asked for |
| ApplyPalette.ThresholdColor | src/3rdparty/sixel/quant.c:1137-1180 | With either threshold lookup a pixel is drawn white if and only if its components add up to at least 256 |
| ApplyPalette.MaskedProbe | src/3rdparty/sixel/quant.c:1322-1333 | The positional methods look up the value of their own mask, clamped; every other method looks up the pixel itself |
| ApplyPalette.DiffusePixel | src/3rdparty/sixel/quant.c:1467-1470 | The three planes of a pixel are diffused in turn, each with its own error; Impulses.StepSpreadsError says in bytes what that adds to each cell |
| ApplyPalette.PixelPlain | src/3rdparty/sixel/quant.c:1463-1471 | One pixel of the plain branch is one step of the scan, its index is stored |
| ApplyPalette.ScanPlain | src/3rdparty/sixel/quant.c:1443-1475 | The loops of the plain branch run the scan over the whole image and store the indices |
| ApplyPalette.Renumber | src/3rdparty/sixel/quant.c:1425-1434 | A colour seen for the first time gets the next number and a copy in the new palette; a known one keeps its number |
| ApplyPalette.ScanCompact | src/3rdparty/sixel/quant.c:1386-1441 | The loops of the optimising branch run the same scan; results are ranks in first-use order and the palette is compacted accordingly |
| ApplyPalette.CopyPalette | src/3rdparty/sixel/quant.c:1440-1440 | The first colours of the palette are replaced by the compacted ones |
| ApplyPalette.QuantApplyPalette | src/3rdparty/sixel/quant.c:1241-1485 | Refuses exactly the calls without colours or with a too large complexion, changing nothing; otherwise buffer, cache, results, palette and count are those of the scan |
| Compaction.CompactionPreservesPicture | src/3rdparty/sixel/quant.c:1386-1475 | Both paths draw the same colour everywhere; numbers appear in first-use order, every kept colour is used, and ncolors is the number of distinct colours used |
| ApplyPalette.OptimizingDrawsTheSamePicture | src/3rdparty/sixel/quant.c:1386-1475 | The same for two whole calls, for every kernel, mask and lookup; the compacted palette never needs more room than the old one |
| Dither.DitherContext.constructor | src/3rdparty/sixel/dither.c:255-336 | A fresh object: a negative count asks for 256 colours at high colour quality |
| Dither.DitherContext.Initialize | src/3rdparty/sixel/dither.c:514-607 | Automatic settings become the widest plane, the centre of the box, and high quality up to 8 colours or low quality above; makes the palette, sets `optimized`, switches diffusion off exactly when the histogram fits the request; otherwise, with the default methods, every palette byte is the midpoint of its box |
| Dither.DitherContext.Apply | src/3rdparty/sixel/dither.c:726-824 | Full quality drops the cache for good; a cache is allocated once, zeroed; the result is null exactly for refused calls, otherwise that of the scan with the stored settings; unless the palette was compacted the object is valid for the next call |
| Dither.NoDiffusion | src/3rdparty/sixel/dither.c:592-595 | Without a kernel the buffer never changes |
| Dither.QuietMethods | src/3rdparty/sixel/quant.c:1296-1336 | No method but the five diffusing ones changes the image, nor do the three wide ones at widths below 2 |
| Dither.OutcomeIsCall | src/3rdparty/sixel/dither.c:764-816 | An accepted call of `Apply` with the cached lookup and an uncompacted palette is one of those calls: palette and count stay, the table goes from the old one, or a zeroed one, to what the call leaves behind, and the results are its indices |
| Dither.PaletteCovers | src/3rdparty/sixel/quant.c:823-838 | If every pixel is sampled and the buckets fit, every pixel's bucket has a palette colour |
| Dither.NeverMonochrome | src/3rdparty/sixel/quant.c:1338-1354 | No generated palette selects a threshold lookup |
| Dither.CoveredScanIsClose | src/3rdparty/sixel/quant.c:1461-1472 | A scan without diffusion over covered pixels draws every pixel within 49 or 196 times (complexion + 2) |
| Dither.RefusedWhen | src/3rdparty/sixel/quant.c:1362-1373 | With a generated palette, a call is refused exactly for an empty image or a complexion beyond the guard |
| Dither.OutcomeIsClose | src/3rdparty/sixel/dither.c:726-824 | The bound for one accepted call, compacted palette included |
| Dither.InitializeAndApply | src/3rdparty/sixel/dither.c:514-824 | End to end: if every pixel is sampled and the buckets fit the request, initialise-then-apply draws every pixel within 49 * (complexion + 2) of itself at full quality and within 196 * (complexion + 2) otherwise |
| PixelFormat.ExpandByte | src/3rdparty/sixel/pixelformat.c:238-243 | The pixels of a full byte, most significant first |
| PixelFormat.ExpandPartial | src/3rdparty/sixel/pixelformat.c:244-250 | The first pixels of a partial byte |
| PixelFormat.ExpandRow | src/3rdparty/sixel/pixelformat.c:237-251 | One row: every pixel is unpacked from its place, and exactly the bytes of the padded row are read |
| PixelFormat.ExpandPalette | src/3rdparty/sixel/pixelformat.c:196-257 | All rows: 1 bit for PAL1 and G1, 2 for PAL2 and G2, 4 for PAL4 and G4, from rows padded to a whole byte; one-byte formats are copied, other formats are refused without a write |
| PixelFormat.FirstAndLastPixel | src/3rdparty/sixel/pixelformat.c:238-250 | The most significant bits of a byte are its first pixel, the least significant ones its last |
| PixelFormat.FieldOfPackByte | src/3rdparty/sixel/pixelformat.c:238-250 | Unpacking a packed byte gives its pixels back |
| PixelFormat.UnpackInvertsPack | src/3rdparty/sixel/pixelformat.c:196-257 | For 1, 2 and 4 bits and any width and height, unpacking the row-padded packing of an image gives the image, partial last bytes included |
| LogoText.CharLenWidth | src/common/impl/strutil.c:4-62 | The bytes and columns of the first character: 0 bytes only at the terminator, never past the end, more than one byte only for a lead byte with all its continuation bytes, and one column for a single byte |
| LogoText.DecodesEncoded | src/common/impl/strutil.c:4-62 | Decoding inverts UTF-8 encoding: for every code point and whatever follows, all its bytes are taken, and the width is the code point's `mk_wcwidth`, 0 if that is negative |
| LogoText.StripAppend | src/logo/logo.c:121-142 | Taking control sequences out respects concatenation after a text that does not end inside one |
| LogoText.ColumnsAppend | src/common/impl/strutil.c:4-62 | Widths add up over whole characters |
| LogoReader.SkipParameters | src/logo/logo.c:125-127 | The scan over digits and semicolons |
| LogoReader.CopyCharacter | src/logo/logo.c:182-189 | The bytes of one character, none of them dropped |
| LogoReader.ReadPiece | src/logo/logo.c:114-189 | One pass of the inner loop, branch by branch: tabs, control sequences, `$` placeholders, characters; LogoColors.PlaceholderPrints, SequencePrints and BrokenSequenceCounts and LogoPictures.LinesArePictures say literally what that adds to the line |
| LogoReader.ReadRow | src/logo/logo.c:97-190 | One line from its start to its break, and the colour carried to the next |
| LogoInstance.Instance.PushLine | src/logo/logo.c:62-73 | A line without width is stored empty; any other gets a reset at its end in colour mode |
| LogoInstance.Instance.PushRows | src/logo/logo.c:95-208 | One cached line per row; the largest width; the number of breaks |
| LogoInstance.Instance.FinishCache | src/logo/logo.c:210-229 | The configured height, the resolved position, the size of the logo, the padding below |
| LogoInstance.Instance.BuildCache | src/logo/logo.c:75-230 | The whole build, as a function of the text, the options and the terminal's width |
| LogoLines.Shape | src/logo/logo.c:83-229 | For any text, padding and configured height: exactly logoHeight + 1 lines; on the left none is wider than logoWidth; no line reaches into the right padding |
| LogoWatch.Resolved | src/logo/logo.c:22-34 | Left if and only if configured, or automatic with an unknown width or 32 columns beside the logo; top if and only if configured or automatic otherwise; right if and only if configured. The width is the largest of the configured one and the lines, and the right padding |
| LogoPictures.LinesArePictures | src/logo/logo.c:83-229 | For every well-formed text: one cached line per line of the text (LF or CR LF), showing exactly that line after the left padding, without sequences and placeholders, `$$` as one dollar and a tab as four spaces; empty lines above and below, and the height |
| LogoColors.PlaceholderPrints | src/logo/logo.c:144-168 | In colour mode `$1` to `$9` add ESC `[`, colour 1 to 9 and `m`, without width, and carry exactly that to the next line unless the logo is made by chafa |
| LogoColors.SequencePrints | src/logo/logo.c:121-139 | A sequence of digits and semicolons that ends in `m` is copied without width and carried in the same way |
| LogoColors.BrokenSequenceCounts | src/logo/logo.c:121-142 | If no ASCII byte ends the digits and semicolons, their bytes are dropped from the line and all but one counted |
| LogoColors.LinesAreFramed | src/logo/logo.c:79-107 | Every line of some width begins with bold if bright colours are printed, the colour and the padding, and ends with a reset in colour mode; the first colour is colour 1, every later one the last colour of the line before |
| LogoSequences.SequenceIsRead | src/logo/logo.c:121-142 | Of any control sequence by section 5.4 of ECMA-48 the parser copies one byte after the digits and semicolons without width, and reads the rest as characters of one column each; together the output is one complete sequence again |
| LogoSequences.StepIsGood | src/logo/logo.c:113-190 | Steps have the effect of the inner loop, add only complete sequences and bytes of one line, and carry only complete colours |
| LogoSequences.StepsAlike | src/logo/logo.c:113-190 | Both colour modes take the same step: the same bytes consumed, the same width, the same visible bytes; a step is a whole control sequence or one pass of the inner loop |
| LogoLayout.RowAlike | src/logo/logo.c:97-190 | The same for a whole line, whatever colours are carried |
| LogoLayout.LayoutIgnoresPipe | src/logo/logo.c:75-230 | Colour mode and pipe mode give the same number of lines, widths, position, height and offset, and equal lines after taking control sequences out |
| LogoPlaceholders.LinesAlikeIff | src/logo/logo.c:75-230 | For every text whose ESC bytes begin control sequences: both modes give alike lines if and only if colours are not replaced or every `$` is proper |
| LogoPlaceholders.LinesDiffer | src/logo/logo.c:144-176 | For every text, an improper `$` makes some line differ between the modes |
| LogoPlaceholders.UnknownPlaceholder | src/logo/logo.c:144-176 | The concrete failing text `$x`, under any settings |
| LogoLayout.CachedLinesAreShown | src/logo/logo.c:75-230 | No cached line holds a line feed or an unfinished control sequence |
| LogoColumns.RecordedWidth | src/logo/logo.c:95-208 | The recorded width of each row's line is the number of columns of its characters after taking control sequences out, plus one for each byte of a sequence that the parser reads as a character |
| LogoColumns.RecordedWidthIsVisibleIff | src/logo/logo.c:121-142 | All recorded widths are the visible ones if and only if every control sequence has digits and semicolons alone before its final byte |
| LogoColumns.HiddenCursorIsCounted | src/logo/logo.c:121-142 | The concrete failing text ESC `[?25lA`: its line is recorded three columns too wide |
| LogoInstance.Instance.PrintChars | src/logo/logo.c:307-326 | A logo on top is printed at once and the cache is cleared, any other stays cached; LogoWatch.TopShown says what is on the screen then |
| LogoInstance.Instance.PrintLogoLine | src/logo/logo.c:746-783 | The tokens of `ffLogoPrintLine` for a cached line, past the last line, and for a cleared cache; the next line and keysHeight advance |
| LogoInstance.Instance.PrintRemainingLines | src/logo/logo.c:785-814 | The lines that are left, each on its own row, then a reset, keysHeight and a cleared cache; without a cache the missing line feeds |
| LogoInstance.Instance.Run | src/fastfetch.c:813-843 | The round loop, with and without watch |
| LogoRounds.LineAdvances | src/logo/logo.c:746-783 | Every call advances exactly logoWidth columns past the last line, for a cleared cache and for a logo on the right; for a cached line on the left it does so if and only if the line's recorded width is its visible one. It touches its own row only, and with a cleared cache no cell of the logo |
| LogoRounds.ModulesPrinted | src/logo/logo.c:746-783 | After k module lines the cursor is k rows down; the first lines of the logo were printed in order, one per row |
| LogoRounds.FirstRound | src/logo/logo.c:746-814 | A round with a cached logo ends max(k, logoHeight + 1) rows down; each cached line was printed once, in order, on its own row |
| LogoRounds.LaterRound | src/fastfetch.c:813-843 | A round with a cleared cache ends equally far down, prints no logo line and changes no cell of the logo, unless a module line runs into a logo on the right |
| LogoRounds.AfterRemaining | src/logo/logo.c:785-814 | keysHeight is logoHeight + 1 after the rest of the logo, and the cache is cleared |
| LogoRounds.RowsAgree | src/fastfetch.c:813-843 | Every watch round starts in the top left corner and ends max(k, logoHeight + 1) rows down, for every number of rounds and of module lines in them |
| LogoRounds.WatchShows | src/fastfetch.c:813-843 | After any number of rounds the module lines of the last round are on the screen and all of the logo too, always on the left, and on the right if no module line runs into it |
| LogoWatch.ShowLogo | src/fastfetch.c:788-843 | From the text of a logo to the screen: after any number of rounds a left logo is shown line by line, and a right one if no module line runs into it; every logo line was printed exactly once; module lines start right of a left logo from the second round on, and in the first one if all sequences are simple |
| LogoWatch.ShowLogoOnce | src/fastfetch.c:788-848 | The same for a run without watch: with printRemaining every logo line is printed once and the cursor ends max(k, logoHeight + 1) rows down, without it the logo ends with the modules |
| LogoWatch.TopShown | src/logo/logo.c:307-326 | A logo on top: every line was printed exactly once, in order, line i on the i-th row below the cursor from column 0; the cursor ends below the bottom padding in column 0, and no other row changes |
| LogoWatch.ShowLogoOnTop | src/fastfetch.c:788-848 | From the text of a logo on top to the screen: the logo line by line, below it and its padding the module lines from column 0 |
| LogoErase.WatchErases | src/logo/logo.c:777-780 | After any number of rounds nothing is left below the larger of module lines and logo, nor, with a logo on the left, right of the module lines |
| LogoErase.StaleLine | src/fastfetch.c:813-826 | A module line of the round before that the last round has no line for is erased if it was below the logo and stays on the screen if it was beside it |
| LogoErase.NoStaleLineIff | src/fastfetch.c:819-822 | Shorter output replaces longer output completely if and only if the last round has as many module lines as the one before, or covers all rows of the logo |
| LogoErase.RoundResets | src/logo/logo.c:799-801 | In colour mode a round that prints the rest of the logo ends with the colours reset |
| LogoWatch.RightLogoFits | src/logo/logo.c:746-761 | On a terminal wide enough, a logo on the right is written from the column that leaves its width, and keeps clear of its right padding |
| Arguments.Parse | src/fastfetch.c:706-711 | The blanking at the end of `parseCommand`: key and value are emptied exactly for commands |
| Arguments.TakesValueIff | src/fastfetch.c:757-784 | The rule in characters: the next argument is a value unless it begins with `-` and has a second character; even then it is one before a digit, before a point and a digit, or after `--separator-string` in any case |
| Arguments.CallAt | src/fastfetch.c:764-786 | Every call is for an argument that begins with `-`, with the next argument as value exactly if that rule says so |
| Arguments.NothingIsLost | src/fastfetch.c:764-786 | The keys and values of the calls are exactly the non-empty arguments in order, up to the first key that does not begin with `-` |
| Arguments.RemainingIsTheRest | src/fastfetch.c:706-711 | What the option pass is to see is exactly what is not a command or the value of one |
| Arguments.ParseArguments | src/fastfetch.c:764-786 | One pass: completes exactly if every key starts with `-` and no call ends the process, which may depend on the calls before it; then the calls and the arguments left behind are those of the specification; the first call is for the first argument if that begins with `-`, with the next one as value or none; otherwise the calls are those up to the offending argument, or up to the first one that ends the process |
| Arguments.PassesAligned | src/fastfetch.c:764-786 | If the command pass meets only options, so does the option pass, and it sees exactly the keys that were not blanked, in order and with their values, except that a missing value becomes empty before a blanked command |
| Arguments.ParseTwice | src/fastfetch.c:918-927 | Both passes: after a completed command pass the option pass never stops at an argument without `-`, and if it completes it made exactly those calls |

## Left out

- Allocation failures, reference counting, the setters that `sixel_dither_initialize` does not call, trace output and the built-in palettes.
- Depths other than 3: every caller in `dither.c` passes 3.
- Pixel formats other than RGB888, their normalisation (`get_rgb`, `expand_rgb`), and the images that need it.
- The formulas of `mask_a` and `mask_x`: a mask is an arbitrary function of position, channel and value.
- Impulses.StepSpreadsError: is about images at least 3, 4 or 5 pixels wide (Floyd-Steinberg, Atkinson, the others), because on narrower ones two taps fall on one pixel; Impulses.StepReceives covers these.
- Planes.LargestByLuminosity: works over `real`, because rounding of `double` is not the point of the comparison.
- The `value` fields of a colour map, which nothing reads.
- Sorting.QSort: the body is an insertion sort; callers only know that the range becomes a sorted permutation.
- Wrap-around of `sample` (taken as a natural number, as on LP64) and of `uint32_t` logo widths other than in `rightOffset`.
- ApplyPalette.QuantApplyPalette: is about complexions of at least -33025, because the source's int products overflow below that, which C leaves undefined.
- Dither.InitializeAndApply: bounds the error for complexions of at least 1, because with a weight of zero or less the sum is no distance.
- Reusing a dither object's cache after its palette was compacted or replaced.
- Conservation.ScanConserves: is about the kernels of full weight, because Atkinson and Stucki lose a fixed part of every error by design.
- SelfConsistency.SelfConsistentIff: starts at width 2 for the three wide kernels, because the source replaces them below that.
- Logo text in which a control sequence is cut off by the end of the string: the code reads past the terminator there, the model stops.
- `ffLogoPrint`, file and image loading, spinning logos, terminal queries, built-in logos and the JSON output of `run`.
- What a module prints: one line of text without line feed; modules that print more lines call `ffLogoPrintLine` for each.
- LogoRounds.RowsAgree: is about logos on the left or right, because one on top is not cached and later rounds overwrite it.
- LogoWatch.ShowLogo: needs a terminal wider than the logo, because lines do not wrap on the modelled screen; and at least one round.
- LogoColumns.RecordedWidth: needs text in UTF-8, because stray bytes of a character can join when a placeholder between them vanishes.
- The bodies of `parseCommand` and `parseOption`, configuration files between the passes, and the check of `--dynamic-interval` against `--json`.
- `FFlist` and `FFstrbuf` are sequences; `FFcache`, base64, networking, detection modules, formats and help texts are not part of this model.
