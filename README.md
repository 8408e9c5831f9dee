# Quadtree image engine, in Dafny

This project models the image engine of a small Java program. The program stores a
picture in a quadtree and redraws it in several ways:

- `QuadTree.java` builds the tree. Each node stores the truncated average colour of a
  rectangle of pixels. `divide` splits nodes until a block has fewer than two pixels.
  `divideRegulated` also stops at a leaf budget or an error tolerance.
- The same file then walks the finished tree to write an output grid. `quadCompression`
  flat-fills the blocks. `quadCompressionOutlined` and `quadEdgeOutlined` draw red node
  borders. `edgeDetector` and `motionBlur` fill shallow leaves and run a 3x3 kernel over
  deep nodes.
- `Filter.java` adds an in-place `negative` filter and a whole-grid `motionBlur`.
- `Color.java` is the mutable RGB cell.

## Structure

| file | module | models |
|---|---|---|
| `colors.dfy` | `Colors` | Pixels as the value `Rgb`, Java's truncating division `Trunc`, `Math.abs`, and the class `Color` with its fields, getters, setters and `toString`. The `toString` contract says the string parses back to the three channels. |
| `regions.dfy` | `Regions` | Half-open rectangles `[startRow, endRow) x [startCol, endCol)`. It also holds `findAverageColor` (`AverageColor`, proved against `Average`) and the squared colour distance that `divideRegulated` accumulates (`ColorDistance`, proved against `SqDistance`). |
| `stencil.dfy` | `Stencil` | The 3x3 kernels of `edgeDetector` and `motionBlur`, and the loops that apply them over a block. Each kernel has a uniform specification (`EdgeAt`, `BlurAt`). The methods follow the nine boundary cases of the Java code. |
| `tree.dfy` | `Trees` | Nodes as values, `Leaf` or `Split` with four children. It holds the quadrant geometry and the trees that `divide` (`Divided`) and `divideRegulated` (`Regulated`) build, with their shape lemmas. |
| `render.dfy` | `Rendering` | The recursive walks that write an output grid. Each walk is proved against a per-cell function that replays it on one cell (`Render`, `Filtered`). Lemmas then say which node decides each cell. |
| `quadtree.dfy` | `QuadTrees` | The class `QuadTree` with its fields `root` and `size`, the constructor, `divide`, `divideRegulated` and the public entry points. |
| `filter.dfy` | `Filters` | `Filter.negative` over a grid of `Color` objects, and `Filter.motionBlur`. |

Grids are `array2<Rgb>`. The first index is the row (`image.length`), the second the
column (`image[0].length`).

Nodes are values, so the tree methods return the rebuilt node. The class keeps `size` as a
field, and the recursive methods add 4 to it per split, as the Java code does.

Integer behaviour follows Java where it matters:

- Java's `/` on `int` truncates toward zero, and so does the `(int)` cast of a positive or
  negative double. Both are modelled by `Trunc`.
- An empty region's average is `0.0 / 0`, which is NaN, and `(int)NaN` is 0. It is
  therefore black.

The error test of `divideRegulated` is kept as written, with divisor
`(endRow - startCol) * (endRow - startRow)`:

- A zero divisor makes the error NaN or infinite. Neither compares below the tolerance.
- Otherwise the test is `colorDistance < tolerance * |divisor|`, compared exactly (see "## Left out" for the rounding this drops).

One claim in the program's own comments does not match the code. The comments on `divide`
(QuadTree.java:113-114 and 122-123) say it divides "down to the level of the pixel". We read
that as a divided tree having one leaf per pixel. In the code, a block with a side of length 1 still splits
into four children, two of them empty. The model proves what the code does instead: the
number of *non-empty* leaves equals the area (`Trees.DividedLeavesArePixels`).

## Model

| member | source | states |
|---|---|---|
| Colors.Abs | QuadTree.java:442 | `Math.abs` of an int is the int or its negation, and never negative |
| Colors.AbsRgb | QuadTree.java:776 | The channel-wise absolute value is non-negative, and leaves a non-negative colour unchanged |
| Colors.TruncBounds | QuadTree.java:595-598 | Java's integer quotient `a / d` has the largest size whose multiple of d does not exceed `|a|`, has a's sign, and negating a negates it |
| Colors.IntToStringRoundTrip | Color.java:31 | The decimal rendering of any int, with a minus sign for negatives, parses back to the same int |
| Colors.Show | Color.java:30-32 | `red + " " + green + " " + blue` parses back to exactly the three channels, negative or above 255 included |
| Colors.Color.constructor | Color.java:11-15 | The new Color holds exactly the given red, green and blue, without clamping |
| Colors.Color.SetRed | Color.java:17 | Only red changes, to the given value; green and blue keep theirs |
| Colors.Color.GetRed | Color.java:19 | Returns the current red field |
| Colors.Color.SetGreen | Color.java:21 | Only green changes, to the given value |
| Colors.Color.GetGreen | Color.java:23 | Returns the current green field |
| Colors.Color.SetBlue | Color.java:25 | Only blue changes, to the given value |
| Colors.Color.GetBlue | Color.java:27 | Returns the current blue field |
| Colors.Color.ToString | Color.java:30-32 | The rendered string parses back to the object's current three channels |
| Regions.AverageColor | QuadTree.java:251-267 | The nested loops compute, per channel, the region's sum divided by its area and truncated; an empty region gives black |
| Regions.AddRow | QuadTree.java:256-261 | One pass of the inner loop adds exactly the row's cells of the region to the running totals |
| Regions.AverageBounds | QuadTree.java:251-267 | On a non-empty region whose channel lies in [lo, hi], the average's channel lies in [lo, hi] |
| Regions.AverageOfUniform | QuadTree.java:251-267 | A non-empty region of one colour averages to that colour |
| Regions.ColorDistance | QuadTree.java:192-197 | The loop computes the sum over the region of the squared channel differences from the average |
| Regions.SqDistanceZero | QuadTree.java:192-197 | That distance is zero exactly when every cell of the region equals the reference colour |
| Stencil.EdgeWeightCountsNeighbours | QuadTree.java:309-440 | The centre weight (3 at corners, 5 on borders, 8 inside) equals the number of in-grid neighbours subtracted |
| Stencil.UniformEdgeIsBlack | QuadTree.java:309-442 | A 3x3 block of one colour gives an edge value of black |
| Stencil.EdgePixel | QuadTree.java:306-442 | The nine boundary cases compute `|w * centre - sum of in-grid neighbours|` per channel, the uniform edge kernel |
| Stencil.WeightedWindowTotal | QuadTree.java:310-322 | The i/j loop over a case's window adds w times the centre and subtracts every other cell |
| Stencil.BlurChannel | Filter.java:256 | Each blurred channel is the absolute value of the sum of the nine truncated terms |
| Stencil.BlurSumBounds | Filter.java:75-255 | With channels in [0, m] around a cell, the nine terms sum into [0, m], because 1/4 + 4 * 1/8 + 4 * 1/16 = 1 |
| Stencil.BlurredBounds | Filter.java:75-256 | A neighbourhood with channels in [0, m] blurs to channels in [0, m] |
| Stencil.BlurBounds | QuadTree.java:590-776 | A grid cell whose 3x3 window has channels in [0, m] blurs into [0, m] |
| Stencil.BlurPixel | QuadTree.java:595-776 | The nine boundary cases compute centre/4 + present orthogonal/8 + present diagonal/16, truncated per term, then `Math.abs` |
| Stencil.FirstRowShares | Filter.java:75-128 | On the first row, the three column cases add exactly the present neighbours' shares |
| Stencil.LastRowShares | Filter.java:129-181 | On the last row, the three column cases add exactly the present neighbours' shares |
| Stencil.InnerRowShares | Filter.java:182-255 | On an inner row, the three column cases add exactly the present neighbours' shares |
| Stencil.EdgeBlock | QuadTree.java:304-443 | Every cell of the block gets its edge value; every other cell of the output is unchanged |
| Stencil.BlurBlock | QuadTree.java:590-778 | Every cell of the block gets its blur value; every other cell of the output is unchanged |
| Stencil.BlurRow | QuadTree.java:591-777 | One row of the block gets its blur values; every other cell is unchanged |
| Trees.QuadrantsTile | QuadTree.java:135-161 | The four quadrants at the floor midpoints cover the parent and are pairwise disjoint |
| Trees.QuadrantAreas | QuadTree.java:135-161 | The quadrants' areas add up to the parent's area |
| Trees.QuadrantsShrink | QuadTree.java:131-161 | A block of area at least 2 splits into quadrants each strictly smaller, so the recursion ends |
| Trees.CountBySplits | QuadTree.java:162 | A tree has 1 + 4 * (number of splits) nodes |
| Trees.WellFormedWithin | QuadTree.java:129-163 | In a well-formed tree, every node lies in any grid that holds the root's block |
| Trees.LeavesCoverBlock | QuadTree.java:135-161 | The leaves' areas add up to the root's area |
| Trees.SmallLeavesAreCells | QuadTree.java:131-133 | When every leaf has area below 2, the non-empty leaves number exactly the area |
| Trees.DividedShape | QuadTree.java:129-163 | The divided tree keeps the root's colour, depth and rectangle. Children tile their parent one level deeper and every leaf has area below 2. When the root holds its block's average, so does every node |
| Trees.DividedLeavesArePixels | QuadTree.java:129-163 | A divided tree has exactly one non-empty leaf per pixel |
| Trees.Pow4 | QuadTree.java:202 | The exact integer power `4^depth` that `Math.pow(4, depth)` computes, which is at least 1 |
| Trees.RegulatedShape | QuadTree.java:185-240 | The regulated tree keeps the root's fields and is well formed. Every node is split exactly when none of the three stop tests holds. When the root holds its block's average, so does every node |
| Trees.BudgetStopsAtRoot | QuadTree.java:200-204 | When `4^depth > maxLeaves` the node stays a leaf; with `maxLeaves = 0` the tree is root-only |
| Trees.NoToleranceNoStop | QuadTree.java:198-208 | With a tolerance of 0 or below, the error test never stops a split |
| Trees.RegulatedIsDivided | QuadTree.java:185-240 | With a tolerance of 0 or below and a budget of at least `4^depth` at every split of the divided tree, divideRegulated builds the same tree as divide |
| Rendering.Deepest | QuadTree.java:464-479 | Every cell of a well-formed tree's block lies in a leaf inside that block |
| Rendering.RenderOutside | QuadTree.java:464-551 | The walks never change a cell outside the root's block |
| Rendering.RenderDeepest | QuadTree.java:464-517 | After quadCompression or quadCompressionOutlined, a cell holds what the deepest node containing it paints there |
| Rendering.CompressedShowsLeafColour | QuadTree.java:464-479 | After quadCompression, each cell of the block holds the colour of the leaf that contains it |
| Rendering.DeepestIsAveraged | QuadTree.java:129-163 | In an averaged tree, the leaf holding a cell stores the average of its block |
| Rendering.CompressedIsLeafAverage | QuadTree.java:464-479 | After quadCompression of an averaged tree, each cell holds its leaf's block average |
| Rendering.OutlineFramesRoot | QuadTree.java:496-517 | quadCompressionOutlined leaves the root block's first and last rows and columns red |
| Rendering.BorderMarksNodeBorders | QuadTree.java:532-551 | quadEdgeOutlined turns a cell red exactly when it lies on some node's border, and leaves every other cell unchanged |
| Rendering.FillBlock | QuadTree.java:470-474 | The loops write the colour over the block and nothing else |
| Rendering.OutlineBlock | QuadTree.java:502-512 | The loops write red on the block's border and the colour inside it |
| Rendering.BorderBlock | QuadTree.java:538-546 | The loops write red on the block's border only |
| Rendering.CompressNode | QuadTree.java:464-479 | The walk leaves every cell as the per-cell replay of the walk, NW, NE, SE, SW after the node, says |
| Rendering.OutlineNode | QuadTree.java:496-517 | As above, for the outlined painting |
| Rendering.EdgeOutlineNode | QuadTree.java:532-551 | As above, for the border-only painting |
| Rendering.GateNode | QuadTree.java:285-303 | The walk down to a cell stops at a node that holds the cell and is either a leaf or at the gate depth |
| Rendering.FilteredOutside | QuadTree.java:285-448 | edgeDetector and motionBlur never change a cell outside the root's block |
| Rendering.FilteredByGate | QuadTree.java:292-303 | Each cell ends with what its gate node writes: black or the block average above the gate, the kernel value at or below it |
| Rendering.BlurStaysInRange | QuadTree.java:570-781 | If the picture's channel lies in [0, m], motionBlur's output lies in [0, m] over the tree's block |
| Rendering.EdgeOfUniformIsBlack | QuadTree.java:285-448 | edgeDetector writes black at a cell whose 3x3 neighbourhood is uniform |
| Rendering.EdgeNode | QuadTree.java:285-448 | The recursive edgeDetector writes exactly the per-cell replay `Filtered(Edge, …)` and touches only the output grid |
| Rendering.BlurNode | QuadTree.java:570-781 | The recursive motionBlur writes exactly `Filtered(Blur, …)` and touches only the output grid |
| QuadTrees.QuadTree.constructor | QuadTree.java:101-104 | The root spans the whole image at depth 0 and holds its average; size is 1 |
| QuadTrees.QuadTree.DivideNode | QuadTree.java:129-163 | Returns the divided subtree; size grows by 4 per split it makes |
| QuadTrees.QuadTree.DivideChild | QuadTree.java:139-140 | Makes one quadrant's child and divides it; size grows by 4 per split below it |
| QuadTrees.QuadTree.Divide | QuadTree.java:117-119 | The root becomes the divided tree. From a fresh tree, size counts the nodes and every leaf is below 2 pixels |
| QuadTrees.QuadTree.RegulatedNode | QuadTree.java:185-240 | Returns the regulated subtree; size is unchanged when a stop test holds, and otherwise grows by 4 per split |
| QuadTrees.QuadTree.RegulatedChild | QuadTree.java:214-215 | Makes one quadrant's child and regulates it; size grows by 4 per split below it |
| QuadTrees.QuadTree.DivideRegulated | QuadTree.java:173-175 | The root becomes the regulated tree. size is unchanged when a stop test holds at the root, and otherwise grows by 4 per split. From a fresh tree, size counts the nodes and every split is the one the three tests call for |
| QuadTrees.QuadTree.QuadCompression | QuadTree.java:454-456 | The output is the per-cell fill replay of the tree |
| QuadTrees.QuadTree.QuadCompressionOutlined | QuadTree.java:486-488 | The output is the per-cell outlined replay of the tree |
| QuadTrees.QuadTree.QuadEdgeOutlined | QuadTree.java:523-525 | The output is the per-cell border replay of the tree |
| QuadTrees.QuadTree.EdgeDetector | QuadTree.java:274-276 | The output is `Filtered(Edge, root, …)`; the original is not written |
| QuadTrees.QuadTree.MotionBlur | QuadTree.java:558-560 | The output is `Filtered(Blur, root, …)`; the original is not written |
| Filters.Negated | Filter.java:22-24 | Each channel of the negative plus the original channel is 255; the negative is in [0, 255] exactly when the original is |
| Filters.NegatedTwice | Filter.java:21-24 | Taking the negative twice gives the pixel back |
| Filters.Negative | Filter.java:18-27 | When no Color object is shared between cells, every cell ends with the negative of its old value |
| Filters.MotionBlur | Filter.java:69-260 | The square block of side `rows` gets the blur of the original; every other cell of the output is unchanged |
| Filters.MotionBlurInRange | Filter.java:75-256 | Channels in [0, m] blur to channels in [0, m] |

## Left out

- Reading and writing image files and the command-line driver are I/O, not engine logic. WriteImg.java and Main.java are not part of this model.
- `Filter.grayscale` and `Filter.tint` compute with `double` coefficients. Floating point is not modelled.
- The `double` accumulators of `findAverageColor` and of the colour distance are modelled as exact integers. Channel sums of real pictures stay far below 2^53, where doubles are exact.
- The error test of `divideRegulated` compares `colorDistance / divisor` with the tolerance exactly. The rounding of that double quotient, which can flip the test right at the tolerance boundary, is not modelled.
- `divideRegulated` takes `maxLeaves` as an int parameter. It stands for `(int)(compressionLevel * image.length * image[0].length)`, whose floating-point product is not modelled.
- `Math.pow(4, depth)` is the exact integer power. Powers of 4 are exact doubles up to depth 511; from depth 512 the double is infinite.
- 32-bit overflow of `int` arithmetic is not modelled; all integers are unbounded. Pixel values in a picture cannot reach it.
- Nodes are values, not objects. Linking by `setNorthwest` and the other setters, null children and `Node.setDepth` (a no-op self-assignment) are not represented. The walks' `n == null` tests correspond to the children a `Leaf` lacks.
- `getRootValue`, `size()` and `isEmpty` are trivial accessors (two field reads and the test `size == 0`) and have no members.
- Java's jagged `Color[][]` is a rectangular `array2`. Column counts come from `image[0].length` throughout, as in the source.
- Pixels in `QuadTree.java` and `Filter.motionBlur` are values, so the sharing of one `Color` object across cells is not represented. The source's sharing (one `black` or average object for a whole block) is harmless there, because those grids are only written, never mutated through the objects.
- Filters.Negative: the contract holds only when no `Color` object appears in two cells. A shared object would be negated once per cell that holds it.
- Stencil.EdgeBlock: requires the original and output grids to be different arrays, and so do `BlurBlock`, `Rendering.EdgeNode`, `Rendering.BlurNode`, `QuadTrees.QuadTree.EdgeDetector`, `QuadTrees.QuadTree.MotionBlur` and `Filters.MotionBlur`. Java accepts the same array twice; the kernel would then read cells it has already rewritten.
- Filters.MotionBlur: requires at least as many columns as rows and at least two rows. Otherwise Java indexes past the grid and throws; the exception is not modelled.
- QuadTrees.QuadTree.EdgeDetector: requires a grid of at least 2x2 when some node reaches the kernel, and so does `MotionBlur`. On smaller grids Java indexes past the grid and throws.
- QuadTrees.QuadTree.Divide: states the node count and leaf size only when the root is still a single leaf, as after the constructor. Dividing an already-divided tree re-divides only the root's own block.
- QuadTrees.QuadTree.constructor: requires at least one row. Java reads `image[0].length` and throws on an empty image; its only caller never passes one.
