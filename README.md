# dauntless tag detector, modelled in Dafny

This project models the core of the dauntless fiducial-tag detector. The detector finds square tags in a camera frame and reads their 6x6 bit pattern. The model covers these stages (two of them, the angle test and the orientation classifier, in corrected form; see Findings and Left out):

- **Masks.** The image is blurred with a separable 5-tap binomial kernel and differentiated with the 3x3 Sobel operator (`Oper`). Two masks come from that:
  - the Canny edge mask: gradient magnitude and quantised orientation, non-maximum suppression, then hysteresis thresholding as a queue-driven flood fill (`Mask`, `Post`);
  - the Harris corner mask: the structure-tensor response, suppressed to strict 7x7 window maxima above a fraction of the peak (`Mask`).
- **Shapes.** One raster pass over the edge mask labels edge pixels. A union-find (`Uf`) unites labels that meet within a 5x5 window. Each labelled pixel claims the first free corner pixel next to it, and the corners of one union-find set form a shape (`Shapes`).
- **Candidates.** Each shape is reduced to its four extreme corners. The quads pass through the flag-gated side-ratio, angle and enclosure filters (`Filters`, `Candidates`).
- **Decoding.** A quad is sampled through the homography of its corners and binarised. The bit pattern is looked up in the 11-code table in each of its four orientations (`Decode`).
- **Earlier pipeline.** The tag pipeline with optional labels and the parallelogram filter (`Tags`).
- **Workspaces.** The buffers that are reallocated only when the frame size changes (`Ws`).
- **FFT shift.** The quadrant shift of a spectrum (`Fft`).

How the source's forms map to Dafny:

- Images, masks and label maps are flat row-major sequences; `Grid.Get` and `Grid.Set` address them by column and row.
- Pixel values are `real`, and the u8 and bool masks are `bool`.
- The union-find and the workspaces are classes whose methods update their fields.
- Loops that write buffers in place are methods over `array`s, proved against the functions that state each cell's value.
- The iterator chains are functions.
- The square root, `acos` and `floor` are passed in as function parameters.
- Configuration flags are explicit arguments.

## Model

| member | source | states |
|---|---|---|
| Uf.UnionFind.constructor | src/uf.rs:7-12 | a new union-find holds the single element 0, its own root, in a set of size 1, and is well-formed |
| Uf.UnionFind.Push | src/uf.rs:14-17 | pushing the next index appends a singleton set of size 1; every existing element keeps its representative and the structure stays well-formed |
| Uf.UnionFind.Find | src/uf.rs:19-27 | returns the representative of x's set, which is a root; afterwards x points straight at it; the partition and the set sizes are unchanged, and every parent pointer either stayed or now points at its representative |
| Uf.CompressKeepsWf | src/uf.rs:23-25 | pointing a non-root element straight at its representative (path compression) keeps the forest well-formed: roots, acyclicity, representatives and set sizes |
| Uf.UnionFind.Link | src/uf.rs:39-45 | hanging root lo under root hi merges lo's set into hi's set, adds lo's size to hi's, and keeps the forest well-formed |
| Uf.LinkKeepsWf | src/uf.rs:39-45 | linking two distinct roots keeps every part of well-formedness |
| Uf.LinkRoots | src/uf.rs:39-45 | after linking, every element's representative is a root and parent pointers stay within the set |
| Uf.LinkDepths | src/uf.rs:39-45 | after linking, every parent pointer leads strictly closer to a root, so the forest stays acyclic |
| Uf.LinkSizes | src/uf.rs:42-44 | after linking, the size recorded at each root equals the number of elements in its set |
| Uf.RelabelMerges | src/uf.rs:39-45 | the relabelled partition puts exactly the members of both sets into hi's set and changes no other set |
| Uf.UnionFind.Unite | src/uf.rs:29-46 | afterwards x and y share a representative, exactly their two sets have merged and no other set changed. If they were already together nothing changes. Otherwise the two sets become one, rooted at the root of the larger set by recorded size (x's root on a tie), whose size is the sum of the two |
| Uf.PushKeepsWf | src/uf.rs:14-17 | appending a singleton root keeps the forest well-formed |
| Uf.WfCanonical | src/uf.rs:19-27 | in a well-formed forest every representative is its own representative |
| Uf.CoarserTrans | src/uf.rs:29-46 | merging sets in two steps is a merge of the original partition, so repeated unions only coarsen it |
| Shapes.LabelledMark | src/shapes.rs:18-51 | labelling the visited edge pixel advances the raster position: afterwards exactly the inner edge pixels before the next position carry a label |
| Shapes.LabelledSkip | src/shapes.rs:20-22 | passing over a pixel that is not an edge advances the raster position without labelling anything |
| Shapes.LabelledRow | src/shapes.rs:18-19 | past the last inner column the pass resumes at the start of the next row |
| Shapes.LabelledDone | src/shapes.rs:18-19 | after the last inner row, a pixel carries a label exactly when it is an inner edge pixel |
| Shapes.LinkedCoarser | src/shapes.rs:34-36 | uniting labels never separates two labels that were already in one set |
| Shapes.LinkedPush | src/shapes.rs:42-51 | allocating a fresh label keeps every pair of nearby labels in a common set |
| Shapes.LinkedStep | src/shapes.rs:42-51 | giving a pixel a label whose set already holds every label of its 5x5 window keeps nearby labels in a common set |
| Shapes.BagExtend | src/shapes.rs:67-70 | appending points to one label's list adds exactly those points to the claimed points |
| Shapes.BagMember | src/shapes.rs:74-80 | every point of a label's list is among the claimed points |
| Shapes.ClaimsRelabel | src/shapes.rs:42-51 | labelling a still unlabelled pixel keeps every claimed corner next to a pixel of its label |
| Shapes.ClaimsAlloc | src/shapes.rs:42-51 | opening an empty corner list for a new label keeps the claims |
| Shapes.ClaimsTake | src/shapes.rs:67-70 | claiming a still unclaimed corner for a label adds it to that label's list once, clears it from the working mask and keeps every corner claimed at most once |
| Shapes.SeparatedGrow | src/shapes.rs:51 | labelling a blank pixel keeps two labels in one set only when a chain of labelled pixels joins them |
| Shapes.SeparatedUnite | src/shapes.rs:34-35 | uniting the sets of two labels found on pixels within distance two keeps every set joined by chains of labelled pixels |
| Shapes.SeparatedPush | src/shapes.rs:45-47 | a new singleton set keeps the sets joined by chains |
| Shapes.FirstLabelUnique | src/shapes.rs:26-38 | the first labelled cell of a window in row-major order is unique |
| Shapes.RasterKeep | src/shapes.rs:51 | labelling the visited pixel does not change the window-first label or the openness of any earlier labelled pixel |
| Shapes.RasterNew | src/shapes.rs:42-51 | the visited pixel carries the label of the first labelled pixel of its window, and opens an unused label exactly when no earlier pixel of that window is labelled |
| Shapes.RasterStep | src/shapes.rs:24-51 | one visit keeps the raster labelling of every labelled pixel |
| Shapes.FirstCornerUnique | src/shapes.rs:53-65 | the first corner left in a 3x3 neighbourhood in row-major order is unique |
| Shapes.CoverStep | src/shapes.rs:53-70 | one visit keeps every cleared corner claimed, and gives the visited pixel a claimed point next to it whenever a corner pixel is next to it |
| Shapes.ScanZero | src/shapes.rs:24-40 | a zero label in the window leaves the look-back state unchanged |
| Shapes.ScanFirst | src/shapes.rs:28-31 | the first nonzero label met becomes the look-back's label |
| Shapes.ScanUnite | src/shapes.rs:32-37 | a later nonzero label united with the look-back's label keeps every label met so far in one set |
| Shapes.ScanRow | src/shapes.rs:24-25 | the end of one window row continues at the start of the next |
| Shapes.ScanCell | src/shapes.rs:28-38 | one cell of the window: the first nonzero label is adopted, later ones are united with it, and sets only merge; two labels share a set only when a chain of pixels within distance two joins them, counting the visited pixel as already carrying the adopted label |
| Shapes.ScanLine | src/shapes.rs:27-39 | one row of the window, scanned cell by cell, keeps the look-back state and the separation of sets |
| Shapes.LookBack | src/shapes.rs:24-40 | returns None exactly when the 5x5 window holds no label; otherwise the first label in row-major order, now in one set with every label of the window; sets only merge, and only sets joined through the visited pixel |
| Shapes.ClaimCorner | src/shapes.rs:53-65 | returns None exactly when no corner pixel is left in the 3x3 neighbourhood; otherwise the first such corner in row-major order |
| Shapes.StartState | src/shapes.rs:7-16 | before the pass no pixel is labelled, label 0 is reserved and nothing is claimed |
| Shapes.StartTraced | src/shapes.rs:7-16 | before the pass the raster facts hold trivially: no label, every label set closed, no corner cleared |
| Shapes.LabelPixel | src/shapes.rs:24-70 | visiting an edge pixel keeps the pass state and the raster facts. The pixel gets the label of the first labelled pixel of its 5x5 window, or a new label when the window is empty; the label count grows exactly then. When a corner is left in the 3x3 neighbourhood, the first one in row-major order is cleared and appended to the pixel's label's list; otherwise nothing is claimed |
| Shapes.AssignLabel | src/shapes.rs:24-51 | the labelling half of a visit: the first window label, or a new label with an empty list exactly when the window is empty; the raster labelling and the separation of sets are kept |
| Shapes.GatherMembers | src/shapes.rs:74-80 | a point is gathered for a representative exactly when some label of its set claimed it |
| Shapes.Merge | src/shapes.rs:74-80 | the merge has one point list per label, indexed by representative |
| Shapes.GatherStep | src/shapes.rs:76-80 | appending a label's list to its representative's slot extends every slot's gathering by that label |
| Shapes.MergeLabels | src/shapes.rs:74-80 | the merged lists are, for each representative, the points of all labels in its set; together they hold exactly the claimed points; the partition is unchanged |
| Shapes.NonEmpty | src/shapes.rs:82-85 | keeps exactly the non-empty lists, as a subsequence in their original order, and drops no point |
| Shapes.NonEmptyStep | src/shapes.rs:82-85 | keeping or dropping the head list keeps the points and the order |
| Shapes.BagConcat | src/shapes.rs:74-85 | the points of two concatenated lists of lists are the points of both |
| Shapes.ShapeIsGroup | src/shapes.rs:74-85 | every shape is made of corners claimed by labels of one set |
| Shapes.FindShapes | src/shapes.rs:6-86 | a pixel is labelled exactly when it is an inner edge pixel, with the label of the first labelled pixel of its 5x5 window and a new label exactly when no earlier pixel of that window is labelled; two labels share a set exactly when a chain of labelled pixels, each within distance two of the next, joins them; every corner is claimed at most once, next to a pixel of its label, and every labelled pixel next to a corner has a claimed point next to it; the shapes are the non-empty merged groups and hold exactly the claimed corners, so each shape is non-empty and every point of it is an in-bounds corner pixel |
| Shapes.ShapePoints | src/shapes.rs:53-85 | every point of a shape is an in-bounds corner pixel that appears in exactly one shape, once |
| Shapes.ArgMinFirst | src/shapes.rs:96-97 | the index of a least key, with every earlier key strictly greater (the first minimum) |
| Shapes.ArgMaxLast | src/shapes.rs:98-99 | the index of a greatest key, with every later key strictly smaller (the last maximum) |
| Shapes.Extremes | src/shapes.rs:96-99 | the four picked corners are points of the shape; top-left and bottom-right bound x + y, top-right and bottom-left bound y - x |
| Shapes.QuadOf | src/shapes.rs:91-104 | a shape yields a quad exactly when it has at least four points and its four extreme corners are pairwise distinct, and then the quad is those corners |
| Shapes.FilterQuads | src/shapes.rs:88-108 | quad extraction yields at most one quad per shape |
| Shapes.FilterQuadsAppend | src/shapes.rs:88-108 | quad extraction works shape by shape, so it distributes over concatenation |
| Shapes.FilterQuadsMembers | src/shapes.rs:88-108 | a quad is produced exactly when some shape yields it |
| Filters.DistSymmetric | src/filters.rs:31-36 | the distance between two pixels does not depend on the order of its ends |
| Filters.DistZero | src/filters.rs:31-36 | given a square root that vanishes only at zero, the distance is zero exactly when the two pixels coincide |
| Filters.RatioProps | src/filters.rs:38-40 | the ratio of two positive lengths is at least one and symmetric |
| Filters.QuotAtLeastOne | src/filters.rs:38-40 | the larger of two positive lengths over the smaller is at least one |
| Filters.RatioBound | src/filters.rs:38-40 | the ratio is within a bound m exactly when each length is at most m times the other |
| Filters.RatiosOkSpec | src/filters.rs:14-27 | a quad passes the side test exactly when all four sides are positive, opposite sides are within a factor 1.3 of each other and the mean horizontal and vertical sides within 1.5 |
| Filters.EqualSidesKept | src/filters.rs:14-27 | a quad whose four sides have one positive length passes the side test |
| Filters.FilterRatios | src/filters.rs:11-29 | the side filter never returns more quads than it was given |
| Filters.FilterRatiosMembers | src/filters.rs:11-29 | a quad survives the side filter exactly when it was a candidate and passes the side test |
| Filters.RightAngleOk | src/filters.rs:48-63 | with the edge vectors kept signed, a corner whose edges meet at a right angle passes the angle test |
| Filters.RectangleKept | src/filters.rs:42-69 | with signed edge vectors, a quad whose four corners are right angles passes the angle filter |
| Filters.Diamond | src/filters.rs:46 | the square standing on one corner has four distinct corners |
| Filters.AbsAnglesRejectDiamond | src/filters.rs:53-63 | the angle test as written, on absolute edge components, rejects the square standing on one corner although each of its corners is a right angle |
| Filters.AnglesKeepDiamond | src/filters.rs:42-69 | the corrected test, on signed edge components, keeps that square |
| Filters.AbsFilterAngles | src/filters.rs:42-69 | the angle filter as written keeps a subsequence of the quads, no more of them than it was given |
| Filters.AbsFilterAnglesMembers | src/filters.rs:42-69 | a quad survives the angle filter as written exactly when it was a candidate and all four corners pass the absolute-value test |
| Filters.FilterAngles | src/filters.rs:42-69 | the corrected angle filter never returns more quads than it was given |
| Filters.FilterAnglesMembers | src/filters.rs:42-69 | a quad survives the corrected angle filter exactly when it was a candidate and all four corners pass |
| Filters.BoundsOf | src/filters.rs:102-109 | the box's left edge is the smaller x of the two left corners, its right edge the larger x of the two right corners, its top the smaller y of the two top corners and its bottom the larger y of the two bottom corners |
| Filters.EnclosesOrder | src/filters.rs:87 | strict enclosure of boxes is irreflexive, transitive and asymmetric |
| Filters.FilterEnclosed | src/filters.rs:71-92 | the enclosure filter never returns more quads than it was given |
| Filters.FilterEnclosedMembers | src/filters.rs:71-92 | a quad is kept exactly when it stands at some position whose box no quad at another position strictly encloses |
| Filters.FilterEnclosedSubseq | src/filters.rs:71-92 | the enclosure filter keeps the order of the quads it keeps |
| Filters.Widest | src/filters.rs:102-109 | the chosen quad's box is at least as wide as every other box among the first n |
| Filters.FilterEnclosedNonEmpty | src/filters.rs:71-92 | the enclosure filter never discards every quad: a widest quad cannot be enclosed |
| Filters.NestedPair | src/filters.rs:77-89 | of a quad and one whose box strictly encloses it, only the outer one is kept |
| Candidates.RefineAllOff | src/candidates.rs:10-20 | with every filter flag off the quads pass unchanged |
| Candidates.Refine | src/candidates.rs:10-18 | the flag-gated filters, in the order side ratios, corrected angle test, enclosure, never add a quad |
| Candidates.RefineSubseq | src/candidates.rs:10-20 | the flag-gated filters only delete quads; the rest keep their order |
| Candidates.RefineMembers | src/candidates.rs:10-20 | a kept quad passes every enabled test; without the enclosure filter a quad is kept exactly when it passes the enabled side test and the corrected angle test |
| Candidates.FindCandidates | src/candidates.rs:6-21 | the shapes are those of the raster pass as Shapes.FindShapes states them; the result is the quads of those shapes under the flag-gated filters, with the corrected angle test; every shape point is a corner pixel claimed once; every returned quad has four distinct corners and is the quad of one shape |
| Post.NeighbourIdx | src/post.rs:22-25 | from an interior pixel, the flat offset of a unit orientation steps to the neighbour in that direction and back, and both neighbours lie in the buffer |
| Post.NmsAt | src/post.rs:14-31 | the suppressed value is zero on the one-pixel frame and otherwise either zero or the pixel's own magnitude |
| Post.NmsKeepsLocalMax | src/post.rs:27-31 | an interior pixel at least as strong as all eight neighbours keeps its magnitude |
| Post.NmsDropsNonMax | src/post.rs:27-31 | an interior pixel with orientation (dx, dy) whose magnitude is below that at (x + dx, y + dy) or at (x - dx, y - dy) is suppressed to zero |
| Post.Nms | src/post.rs:6-34 | every cell of the output buffer holds the suppressed value of its pixel |
| Post.QueueReach | src/post.rs:74-87 | every queued cell whose predecessors are all set is the end of a chain of set cells that starts at a strong cell |
| Post.ChainInOut | src/post.rs:74-87 | when every strong cell is set and no weak cell next to a set cell is unset, every cell of a strong-or-weak chain from a strong cell is set |
| Post.DrainPush | src/post.rs:81-84 | setting an unset weak neighbour of the entry being processed and queueing it keeps the flood-fill state, and the cell was not queued before |
| Post.DrainAdvance | src/post.rs:74-87 | once every weak neighbour of the front entry is set, popping that entry keeps the flood-fill state |
| Post.DrainClosed | src/post.rs:74-87 | when the queue is empty, no weak cell next to a set cell is left unset |
| Post.DrainExact | src/post.rs:74-87 | when the queue is empty, a cell is set exactly when a chain of strong or weak cells leads to it from a strong cell |
| Post.OutReaches | src/post.rs:66-70 | every cell set by the thresholding pass is reached from a strong cell |
| Post.ClassifiedState | src/post.rs:53-72 | the masks and queue left by the thresholding pass are a valid start of the flood fill |
| Post.ClassifiedStep | src/post.rs:59-66 | classifying one more cell extends the classified prefix of the strong, weak and output masks |
| Post.QueuedStep | src/post.rs:68-70 | queueing a cell when it is strong extends the queue of strong cells met so far, each once |
| Post.ClassifyRow | src/post.rs:56-71 | after one row, every cell up to the end of that row is classified and the queue holds exactly the strong cells met so far, in order, each once |
| Post.Classify | src/post.rs:53-72 | every cell is strong exactly when above high and weak exactly when above low and at most high; the output equals the strong mask; the queue holds each strong cell once |
| Post.UnsetSet | src/post.rs:81-83 | setting an unset cell leaves one unset cell fewer, the measure that bounds the flood fill |
| Post.VisitCell | src/post.rs:79-84 | a weak unset neighbour is set and queued; the state is kept, set cells stay set, and unset cells plus queue length are conserved |
| Post.VisitRow | src/post.rs:75-86 | after one neighbour row every weak cell of it is set; the state is kept and set cells stay set |
| Post.Visit | src/post.rs:75-86 | after one entry every weak cell of its 3x3 window is set and the entry counts as processed |
| Post.Drain | src/post.rs:74-87 | the queue is processed until empty, and the loop terminates because each push sets an unset cell |
| Post.Hysteresis | src/post.rs:36-88 | strong and weak are the thresholds at the high and low fractions of the peak; the output holds every strong cell, only strong or weak cells, and exactly the cells reached from a strong cell through strong or weak cells |
| Post.DrainDone | src/post.rs:74-87 | after draining, strong cells are set, set cells are strong or weak, the output is closed under weak neighbours and equals the reachable cells |
| Mask.QuantiseAsWritten | src/mask.rs:22-35 | the classifier as written always yields one of the four unit offsets (1, 0), (1, 1), (0, 1), (1, -1) |
| Mask.QuantiseAsWrittenVertical | src/mask.rs:28-29 | as written, a purely vertical gradient is given the diagonal offset (1, 1), which does not point along it; the corrected classifier gives (0, 1) |
| Mask.Quantise | src/mask.rs:22-35 | the corrected classifier yields one of the four unit offsets |
| Mask.QuantiseAlong | src/mask.rs:22-35 | the corrected classifier's offset points along the gradient's sector, and it is the only offset that does |
| Mask.QuantiseOpposite | src/mask.rs:22-35 | a gradient and its opposite get the same offset |
| Mask.ResponseSymmetric | src/mask.rs:56-60 | the corner response is unchanged by exchanging the two axes or negating the mixed term |
| Mask.ResponseEdge | src/mask.rs:56-60 | with a non-negative k, a straight edge along one axis never has a positive response |
| Mask.CornersNearEqual | src/mask.rs:82-90 | two marked pixels within one window carry equal responses: suppression keeps a pixel only when nothing nearby is larger |
| Mask.FlatResponseAllMarked | src/mask.rs:71-92 | ties are not broken: on a flat response above the threshold every interior pixel is marked |
| Mask.Suppress | src/mask.rs:65-92 | a pixel is marked exactly when it lies three or more cells from every border, its response exceeds the threshold and no response in its 7x7 window is larger |
| Mask.Magnitudes | src/mask.rs:14-17 | each cell holds the length of its gradient |
| Mask.Orientations | src/mask.rs:19-35 | each cell holds the corrected quantised orientation of its gradient, a unit offset |
| Mask.Products | src/mask.rs:44-46 | each cell holds the product of the two inputs' cells |
| Mask.Responses | src/mask.rs:52-60 | each cell holds the corner response of its structure tensor |
| Mask.Suppressed | src/post.rs:6-34 | each cell holds the non-maximum-suppressed magnitude along the quantised orientation |
| Mask.Canny | src/mask.rs:10-39 | the edge mask is built from the blurred image, its Sobel gradients, the magnitudes suppressed along the corrected orientations and the thresholds at the peak; a pixel is an edge exactly when a chain of strong or weak pixels reaches it from a strong pixel |
| Mask.Tensor | src/mask.rs:44-50 | the three tensor buffers are the blurred squared and mixed gradient products |
| Mask.Harris | src/mask.rs:41-95 | the corner mask is built from the Sobel gradients, the blurred products and the responses; the threshold is the configured fraction of the peak response; a pixel is marked exactly when it is a suppressed corner |
| Oper.IdxShift | src/oper.rs:19-27 | moving by (dx, dy) moves the flat row-major index by dx + dy * w |
| Oper.TapsConstant | src/oper.rs:29 | the binomial weights 1, 4, 6, 4, 1 over 16 sum to one: five equal samples blur to themselves |
| Oper.HBlurAt | src/oper.rs:15-31 | the horizontal pass leaves the two columns at each side zero |
| Oper.BlurBorder | src/oper.rs:12-52 | the blurred image is zero on its two-cell frame |
| Oper.GetConstant | src/oper.rs:8-10 | every cell of a constant buffer holds the constant |
| Oper.BlurConstant | src/oper.rs:8-55 | a constant image blurs to itself away from the two-cell frame |
| Oper.BlurRows | src/oper.rs:12-31 | every cell of the intermediate buffer holds the horizontal taps around it, or zero near the side borders |
| Oper.BlurColumns | src/oper.rs:33-52 | every output cell holds the vertical taps of the intermediate buffer around it, or zero near the top and bottom |
| Oper.Blur | src/oper.rs:8-55 | every output cell holds the separable 5-tap binomial blur of the image at that cell |
| Oper.SobelXAt | src/oper.rs:67-79 | the horizontal response is zero on the one-cell frame |
| Oper.SobelYAt | src/oper.rs:67-80 | the vertical response is zero on the one-cell frame |
| Oper.SobelConstant | src/oper.rs:57-85 | a constant image has no gradient in either direction |
| Oper.Transpose | src/oper.rs:79-80 | the transposed grid holds at (y, x) the cell (x, y) of the original |
| Oper.SobelTranspose | src/oper.rs:79-80 | the vertical response is the horizontal response of the transposed image |
| Oper.Sobel | src/oper.rs:57-85 | the two output buffers hold the horizontal and vertical Sobel responses at every cell |
| Decode.CodesBelow | src/decode.rs:7-19 | every code of the table fits in the 36 bits of a 6x6 grid |
| Decode.CodesDistinct | src/decode.rs:7-19 | the table holds eleven pairwise distinct codes, so a pattern names at most one tag |
| Decode.PowAdd | src/decode.rs:30-33 | powers of two add their exponents when multiplied |
| Decode.Pack | src/decode.rs:30-33 | the bit fold of n bits is below 2^n |
| Decode.Unpack | src/decode.rs:30-33 | unpacking to a width gives that many bits |
| Decode.UnpackPack | src/decode.rs:30-33 | unpacking the packed pattern at the grid's width gives the grid back, so the fold loses nothing |
| Decode.PackInjective | src/decode.rs:30-33 | two grids of one size with the same pattern are equal |
| Decode.PackFirst | src/decode.rs:30-33 | the first bit is the most significant, weighing 2^(n-1) |
| Decode.IndexOf | src/decode.rs:35 | the position search answers None exactly when the value is absent, and otherwise its first position |
| Decode.IndexOfUnique | src/decode.rs:35 | in a table without repeats the position found is the only position holding the value |
| Decode.Lookup | src/decode.rs:30-35 | answers None exactly when the grid's pattern is no code, and otherwise an index holding that pattern |
| Decode.Rot90 | src/decode.rs:47-49 | the quarter turn puts at row i, column j the cell at row 5 - j, column i |
| Decode.Rot90Four | src/decode.rs:47-49 | four quarter turns give the grid back |
| Decode.Turned | src/decode.rs:41 | a grid turned any number of quarter turns keeps its 36 cells |
| Decode.TurnedFour | src/decode.rs:29-42 | turning four times with the repeated quarter turn gives the grid back |
| Decode.Search | src/decode.rs:29-44 | any index the codebook search answers is within the table |
| Decode.SearchSound | src/decode.rs:29-44 | what the search answers is the code index of some tried turn, with no code among the earlier turns |
| Decode.SearchComplete | src/decode.rs:29-44 | the first tried turn whose pattern is a code is what the search answers |
| Decode.SearchFinds | src/decode.rs:29-44 | the search answers r exactly when r is the first match |
| Decode.SearchSome | src/decode.rs:29-44 | the search answers some index exactly when one of the tried turns packs to a code |
| Decode.FirstCode | src/decode.rs:29-42 | when some turn packs to a code, an earliest such turn exists |
| Decode.SearchFindsCode | src/decode.rs:29-44 | with a table without repeats, the search answers r exactly when some tried turn packs to code r and no earlier turn packs to any code |
| Decode.IdentifyFinds | src/decode.rs:29-44 | a grid is identified as tag id exactly when one of its four orientations packs to code id and no earlier orientation packs to any code |
| Decode.SearchRotation | src/decode.rs:29-44 | searching all four turns finds a code for a grid exactly when it finds one for the grid turned a quarter |
| Decode.RotationInvariant | src/decode.rs:29-44 | whether a grid is identified does not depend on its orientation |
| Decode.IdentifyLoop | src/decode.rs:29-44 | the decoding loop, packing, looking up and turning up to four times, answers the codebook search over the four orientations |
| Decode.BrightMono | src/decode.rs:27 | a sample at least as bright as a set bit is itself a set bit |
| Decode.Binarise | src/decode.rs:24-27 | the bit grid has the sample's size; a flat sample gives no set bit; a set bit is brighter than the minimum, and any cell at least as bright as a set bit is set |
| Decode.PackBlank | src/decode.rs:30-33 | a grid with no set bit packs to 0 |
| Decode.SearchBlank | src/decode.rs:29-44 | when 0 is not a code, the codebook search over any number of turns of a grid with no set bit finds nothing |
| Decode.FlatSampleNoTag | src/decode.rs:20-44 | a sample whose 36 cells are equally bright binarises to no set bit and is identified as no tag in any orientation |
| Decode.Perspective | src/decode.rs:100-106 | the matrix carries the perspective terms g and h in its last row, with 1 in the corner |
| Decode.TermsSolve | src/decode.rs:87-98 | the perspective terms solve both linear equations that send (1, 1) to the fourth corner |
| Decode.Solve | src/decode.rs:97-98 | dividing a solution of the scaled system by a nonzero determinant solves the system |
| Decode.FromCorners | src/decode.rs:84-107 | there is a homography exactly when the determinant of the edge vectors at the fourth corner is nonzero, and it is a perspective map of the first three corners |
| Decode.Map | src/decode.rs:109-117 | the point has an image exactly when its homogeneous weight is nonzero |
| Decode.MapOnto | src/decode.rs:109-117 | when the homogeneous image is w times q with w nonzero, the point maps to q |
| Decode.Cancel | src/decode.rs:116 | dividing a multiple of a nonzero weight by that weight cancels it |
| Decode.MapOrigin | src/decode.rs:100-117 | the origin of the unit square maps to the first corner |
| Decode.MapUnitU | src/decode.rs:100-117 | (1, 0) maps to the second corner, unless the weight there vanishes |
| Decode.MapUnitV | src/decode.rs:100-117 | (0, 1) maps to the third corner, unless the weight there vanishes |
| Decode.PerspectiveFar | src/decode.rs:100-117 | with terms that solve the equations, (1, 1) maps to the fourth corner unless the weight there vanishes |
| Decode.MapFar | src/decode.rs:84-117 | the homography of four corners maps (1, 1) to the fourth corner unless the weight there vanishes |
| Decode.SamplePoint | src/decode.rs:63-64 | every sample point of the 6x6 grid lies strictly inside the unit square |
| Decode.Sample | src/decode.rs:51-77 | there is no sample exactly when the corners give no homography or some sample point falls outside the image; otherwise cell (x, y) holds the pixel its sample point maps to |
| Decode.DecodeQuad | src/decode.rs:21-45 | an answered id is an index of the code table, and only covered quads are answered; for a covered quad the answer is the identification of the binarised sample |
| Ws.Empty | src/ws.rs:5-34 | a default buffer is well-formed with no rows and no columns |
| Ws.Filled | src/ws.rs:77-89 | a fresh buffer has the requested dimensions and every cell holds the fill value |
| Ws.Ensure | src/ws.rs:75-91 | afterwards the buffer has the requested dimensions, and a buffer that already had them is kept as it was |
| Ws.EnsureFills | src/ws.rs:75-91 | a replaced buffer is well-formed and filled with the fill value; a well-formed buffer stays well-formed |
| Ws.EnsureIdempotent | src/ws.rs:75-91 | ensuring the same dimensions twice is ensuring them once |
| Ws.CannyWorkspace.constructor | src/ws.rs:5-17 | a default Canny workspace has every buffer empty |
| Ws.CannyWorkspace.EnsureSmoothing | src/ws.rs:40-41 | the two blur buffers are ensured and nothing else changes |
| Ws.CannyWorkspace.EnsureGradients | src/ws.rs:42-45 | the gradient, magnitude and orientation buffers are ensured and nothing else changes |
| Ws.CannyWorkspace.EnsureSuppressed | src/ws.rs:46 | the thinned-magnitude buffer is ensured and nothing else changes |
| Ws.CannyWorkspace.EnsureMasks | src/ws.rs:48-50 | the strong, weak and edge masks are ensured and nothing else changes |
| Ws.CannyWorkspace.EnsureSize | src/ws.rs:36-52 | every buffer has the frame's dimensions, each one is its own ensured buffer, and an already sized workspace is left unchanged |
| Ws.HarrisWorkspace.constructor | src/ws.rs:19-34 | a default Harris workspace has every buffer empty |
| Ws.HarrisWorkspace.EnsureGradients | src/ws.rs:58-59 | the two gradient buffers are ensured and nothing else changes |
| Ws.HarrisWorkspace.EnsureProducts | src/ws.rs:60-62 | the three product buffers are ensured and nothing else changes |
| Ws.HarrisWorkspace.EnsureRowBlurs | src/ws.rs:63-65 | the three horizontal blur buffers are ensured and nothing else changes |
| Ws.HarrisWorkspace.EnsureTensor | src/ws.rs:66-68 | the three tensor buffers are ensured and nothing else changes |
| Ws.HarrisWorkspace.EnsureResponse | src/ws.rs:69-71 | the response buffer and the corner mask are ensured and nothing else changes |
| Ws.HarrisWorkspace.EnsureSize | src/ws.rs:54-73 | every buffer has the frame's dimensions, each one is its own ensured buffer, and an already sized workspace is left unchanged |
| Tags.Encode | src/tags.rs:27 | a 0-sentinel labelling becomes an optional labelling of the same size |
| Tags.Decode | src/tags.rs:27 | an optional labelling becomes a non-negative 0-sentinel labelling of the same size |
| Tags.DecodeEncode | src/tags.rs:27 | decoding an encoded labelling gives it back |
| Tags.EncodeTest | src/tags.rs:46-54 | the optional label of a pixel is present exactly when the 0-sentinel label is nonzero, and then it is that label |
| Tags.EncodeDecode | src/tags.rs:67 | encoding decoded labels gives them back when no pixel holds label 0, which the pass never stores |
| Tags.FindShapesOpt | src/tags.rs:24-102 | exactly the inner edge pixels carry a label, each naming a set of the partition; labels within distance two share a set; decoded to 0-sentinel labels, the labelling, partition, claims and shapes satisfy everything Shapes.FindShapes states; each point is an in-bounds corner pixel in exactly one shape |
| Tags.DeviationScaled | src/tags.rs:188-191 | the deviation of a from a positive b, scaled by b, is their distance |
| Tags.DeviationTest | src/tags.rs:188-191 | for positive side lengths the summed deviations are below 0.75 exactly when a division-free inequality between the sides holds |
| Tags.ParaOkSpec | src/tags.rs:178-195 | a quad passes the parallelogram test exactly when all four sides are positive and the division-free inequality holds |
| Tags.SidesBounded | src/tags.rs:188-191 | side lengths that pass keep each side within a factor 0.25 to 1.75 of the opposite side |
| Tags.ParaOkBounds | src/tags.rs:174-198 | a kept quad has each side within a factor 0.25 to 1.75 of the opposite side |
| Tags.CollapsedRejected | src/tags.rs:184-186 | with a square root that is zero at zero, a quad with two coinciding adjacent corners fails the test |
| Tags.DistTranslate | src/tags.rs:200-205 | translating both ends of a segment keeps its length |
| Tags.ParallelogramKept | src/tags.rs:174-198 | a parallelogram with sides of positive length is kept |
| Tags.FilterParas | src/tags.rs:174-198 | the parallelogram filter never returns more quads than it was given |
| Tags.FilterParasMembers | src/tags.rs:174-198 | a quad survives the parallelogram filter exactly when it was a candidate and passes the test |
| Tags.ScreenSubseq | src/tags.rs:14-21 | the flag-gated filters only delete quads; the rest keep their order |
| Tags.Screen | src/tags.rs:14-21 | the flag-gated filters of the earlier pipeline never add a quad |
| Tags.ScreenMembers | src/tags.rs:14-21 | a kept quad passes the parallelogram test when it is enabled; without the enclosure filter a quad is kept exactly when it passes the enabled test |
| Tags.FindTags | src/tags.rs:10-22 | the shapes are those of the raster pass as Shapes.FindShapes states them; the result is the screened quads of those shapes, in order, and every shape point is a corner pixel claimed once |
| Tags.QuadsOf | src/tags.rs:12-21 | the quads of the shapes, screened in order, form a subsequence of the quads |
| Tags.ScreenedQuads | src/tags.rs:152-198 | every screened quad has four distinct corners, passes the enabled parallelogram test and is the quad of one shape |
| Fft.Mid | src/fft.rs:70-71 | the rotation amount never exceeds the side length |
| Fft.Rotate | src/fft.rs:74-75 | a rotated position stays on the side |
| Fft.MidsComplement | src/fft.rs:70-71 | the forward and inverse amounts add up to the whole side, so one undoes the other |
| Fft.MidsEven | src/fft.rs:70-71 | on a side of even length both amounts are half the side |
| Fft.RotateOnce | src/fft.rs:74-75 | the rotation wraps at most once: it adds the amount and subtracts the side when it passes the end |
| Fft.RotateBack | src/fft.rs:74-75 | rotating by two amounts that add up to the side returns to the start |
| Fft.Shift | src/fft.rs:67-79 | the shifted grid has the same size |
| Fft.ShiftAt | src/fft.rs:73-78 | the cell at (x, y) of the shifted grid is the cell at the rotated column and row of the input |
| Fft.ShiftRoundTrip | src/fft.rs:67-79 | shifting forward and then inverse, or inverse and then forward, gives the grid back |
| Fft.ShiftInvolution | src/fft.rs:67-79 | with both sides even the two directions coincide, so the forward shift undoes itself |
| Fft.SourceOf | src/fft.rs:74-77 | the cell the shift reads lies within the grid |
| Fft.ShiftBijective | src/fft.rs:73-78 | distinct output cells read distinct input cells, so the shift is a permutation of the grid |
| Types.DefaultConfig | src/config.rs:19-35 | the default turns the side and angle filters on and the enclosure filter off, with hysteresis fractions 0 < low < high < 1 |
| Types.Abs | src/filters.rs:53-54 | the absolute value is non-negative and equals the value or its negation |
| Types.Peak | src/post.rs:45 | the maximum fold of a non-empty buffer is one of its values and no value exceeds it |
| Types.Least | src/decode.rs:24 | the minimum fold of a non-empty buffer is one of its values and no value lies below it |
| Types.SubseqMembers | src/filters.rs:11-29 | every element a filter keeps was an element of its input |
| Types.SubseqTrans | src/candidates.rs:10-20 | a chain of filters keeps a subsequence of its first input |
| Types.SubseqRefl | src/candidates.rs:10-20 | a disabled filter keeps the whole sequence |
| Types.SelectSubseq | src/filters.rs:74-91 | selecting by position keeps a subsequence of the positions scanned |
| Types.SelectMembers | src/filters.rs:74-91 | an element is selected exactly when some selected position holds it |
| Types.FilterMembers | src/filters.rs:12-28 | an element survives a filter exactly when it was in the input and passes the predicate |
| Types.FilterSubseq | src/filters.rs:12-28 | a filter keeps the order of what it keeps |
| Grid.Set | src/post.rs:12-15 | writing a cell of a flat row-major grid changes that cell and no other |
| Grid.IdxDistinct | src/post.rs:12 | distinct cells have distinct flat indices |
| Grid.ColRowOfIdx | src/post.rs:12 | the column and row of a flat index recover the coordinates it was built from |
| Grid.IdxBelow | src/post.rs:10-12 | every cell of a w-by-h grid has a flat index below w * h |
| Grid.GetExt | src/oper.rs:12-13 | two grids of one size that agree at every cell are equal |

## Left out

- Floating point. Pixel values, thresholds and coordinates are `real`, so f32 rounding, NaN and infinities are not modelled. The square root (in `dist` and the gradient magnitude), `acos` and `hypot` in the angle test, and `floor` in `sample` are function parameters. Lemmas that need one of their values assume only that value.
- Post.Hysteresis: the peak is the fold of `max` from negative infinity, so an empty buffer gives an infinite threshold. The model uses thresholds of zero when `w * h == 0`, and its threshold clause is stated only for `w * h > 0`; with no cells the masks are empty either way.
- Post.Nms: the source turns the signed offset `dx + dy * w` into a `usize` and relies on wrap-around to step backwards. The model uses signed arithmetic, which gives the same index for every interior pixel.
- Post.Drain: the `VecDeque` is a sequence with a head index. Entries are never removed, only passed, and the queue starts from the cells the thresholding pass pushed.
- Preconditions `w >= 2`, `h >= 2` and similar on Oper.Blur, Oper.Sobel, Mask.Canny, Mask.Harris, Shapes.FindShapes and Tags.FindShapesOpt exclude exactly the sizes where a `usize` range bound such as `h - 2` or `w - 3` would underflow. The source panics there in debug builds.
- Decode.Sample: a mapped point with a negative floor is treated as outside the image, which is what the `as usize` cast followed by `get` amounts to. A vanishing homogeneous weight gives no sample. In f32 a nonzero numerator over a zero weight gives an infinity, which `as isize` saturates to an integer limit and `get` then rejects, as in the model. A zero numerator over a zero weight gives NaN, which `as isize` turns into 0. The source then reads column or row 0 of the image for that cell and goes on, where the model gives no sample.
- Decode.FromCorners: a zero determinant gives no homography. The source divides by zero and goes on with non-finite perspective terms. Every mapped coordinate is then NaN (for the quad (0, 0), (10, 0), (0, 10), (5, 5), say), `as isize` turns each into 0, and on a non-empty image all 36 cells read pixel (0, 0). So the source's `sample` returns a constant grid where the model's Decode.Sample gives none. Decoding ends in no tag either way: a constant grid binarises to no set bit, and pattern 0 is not a code (Decode.FlatSampleNoTag).
- Decode.DecodeQuad: it inherits Decode.Sample's gap. When some cell's weight and numerator are both zero while the determinant is not, the source samples column or row 0 for that cell and may still identify a tag, where the model answers none.
- Decode.Binarise: a flat sample, where the maximum equals the minimum, gives no set bit. The source computes 0/0 there, and NaN compares false.
- Decode.IdentifyLoop takes the code table as a parameter. Decode.DecodeQuad passes it the eleven codes.
- Decode.Pack: the fold `(n << 1) | b` on `u64` is the arithmetic `2 * n + b`. With 36 bits it cannot overflow.
- Ws: an `Array2` is a `Buffer` datatype holding its dimensions and cells. The `f32`, `bool` and `(i8, i8)` buffers are `real`, `bool` and `Orient` buffers. Each workspace's `ensure` is split into helper methods over groups of fields, in the source's order.
- Tags.FindShapesOpt: the optional labelling is obtained from the 0-sentinel pass of Shapes through Encode and Decode, which are proved inverse; its facts are stated on the decoded labelling.
- The union-find duplicated at `src/tags.rs:104-150` is the same code as `src/uf.rs`, and is modelled once by `Uf.UnionFind`. The same holds for `filter_quads` (`src/tags.rs:152-172`, modelled by Shapes.FilterQuads), `filter_enclosed` and `bounds` (Filters.FilterEnclosed, Filters.BoundsOf), and `dist` (Filters.Dist).
- The `rayon` parallel iterators in `src/tags.rs` keep input order and are modelled sequentially. The global `cfg()` flags are explicit arguments.
- `src/process.rs` (pose estimation with `acos` and `tan`), the `rustfft` forward and inverse transforms in `src/fft.rs:8-65`, the serde and set/get plumbing of `src/config.rs`, and the type aliases of `src/types.rs`, `src/lib.rs` and `src/detector.rs` are not part of this model.
- Mask.Canny and Mask.Harris compute their buffers as fresh arrays rather than in the buffers of a workspace; the workspace sizing is modelled on its own by Ws.
- Shapes.FindShapes: it states that every labelled pixel next to a corner pixel has some claimed point next to it, not that it claimed the first corner left in row-major order. Which corners are still left depends on the whole order of earlier claims; Shapes.LabelPixel states the first-corner rule for each visit. It also does not pin the order of the shapes. They are listed by set representative, and the partition is stated as the one that chains of labelled pixels give, not as the one union by recorded size builds, so which label of a set ends up as its representative, and with it the order of the shapes, is left open. The same holds for Tags.FindShapesOpt, Tags.FindTags and Candidates.FindCandidates, which state Shapes.FindShapes' facts about their shapes.
- Candidates.Refine: the angle stage is the corrected Filters.FilterAngles, not the absolute-value test as written (Filters.AbsFilterAngles, first row of Findings). On the tilted square of that row the source drops the quad and the model keeps it.
- Candidates.RefineMembers: the angle condition it states is the corrected Filters.AnglesOk, not the as-written Filters.AbsAnglesOk.
- Candidates.FindCandidates: its result is Candidates.Refine's, so it too runs the corrected angle test.
- Mask.Orientations: each cell holds the corrected classifier Mask.Quantise, not Mask.QuantiseAsWritten (second row of Findings); for gx = 0, gy = 1 the source gives (1, 1) and the model (0, 1).
- Mask.Canny: its suppression uses Mask.Orientations, so its edge mask is that of the corrected classifier, not the source's as written.
- Grid.Get and Grid.Set address cells as column, row, where `ndarray` indexes `[[y, x]]`; the flat index `x + y * w` is the same.

## Findings

| source | as written | input that shows it | evidently intended | confidence | as-written member | corrected member |
|---|---|---|---|---|---|---|
| src/filters.rs:53-54 | the edge vectors of each corner are taken component-wise as absolute values before the angle is computed, so the dot product is never negative and two perpendicular edges of a tilted quad can look parallel | the square standing on one corner, with top-left (0, 5), top-right (5, 0), bottom-left (5, 10) and bottom-right (10, 5): its absolute edge vectors are parallel, giving an angle of 0, and it is rejected although every corner is a right angle | the signed edge vectors, so that a right angle measures pi / 2 whatever the quad's rotation | medium; not executed | Filters.AbsAnglesRejectDiamond | Filters.AnglesKeepDiamond |
| src/mask.rs:26-33 | a gradient within 22.5 degrees of the y axis gets the diagonal offset (1, 1), and a diagonal gradient with gx * gy > 0 gets the vertical offset (0, 1) | gx = 0, gy = 1: a horizontal edge whose suppression compares diagonal neighbours instead of the pixels above and below | the two middle offsets exchanged: (0, 1) for the near-vertical sector and (1, 1) for the diagonal one | medium; not executed | Mask.QuantiseAsWrittenVertical | Mask.QuantiseAlong |
