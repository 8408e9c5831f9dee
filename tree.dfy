/** The quadtree of QuadTree.java as a value: every node records its colour, its
    depth below the root and the block of the grid it stands for, and an internal
    node has exactly the four children NW, NE, SW and SE. `Divided` and `Regulated`
    are the trees that QuadTree.divide and QuadTree.divideRegulated build below a node. */
module Trees {
  import opened Colors
  import opened Regions

  datatype Node =
    | Leaf(color: Rgb, depth: nat, rect: Rect)
    | Split(color: Rgb, depth: nat, rect: Rect, nw: Node, ne: Node, sw: Node, se: Node)

  // ---------------------------------------------------------------------
  // Quadrants.

  /** The split point `(end - start) / 2 + start` of a side. */
  function Mid(start: int, end: int): int
    requires start <= end
  {
    (end - start) / 2 + start
  }

  function NW(r: Rect): Rect
    requires WellFormed(r)
  {
    Rect(r.startRow, r.startCol, Mid(r.startRow, r.endRow), Mid(r.startCol, r.endCol))
  }

  function NE(r: Rect): Rect
    requires WellFormed(r)
  {
    Rect(r.startRow, Mid(r.startCol, r.endCol), Mid(r.startRow, r.endRow), r.endCol)
  }

  function SW(r: Rect): Rect
    requires WellFormed(r)
  {
    Rect(Mid(r.startRow, r.endRow), r.startCol, r.endRow, Mid(r.startCol, r.endCol))
  }

  function SE(r: Rect): Rect
    requires WellFormed(r)
  {
    Rect(Mid(r.startRow, r.endRow), Mid(r.startCol, r.endCol), r.endRow, r.endCol)
  }

  /** The four quadrants are blocks inside the parent, and every cell of the parent lies
      in exactly one of them. */
  lemma QuadrantsTile(r: Rect, i: int, j: int)
    requires WellFormed(r)
    ensures WellFormed(NW(r)) && WellFormed(NE(r)) && WellFormed(SW(r)) && WellFormed(SE(r))
    ensures Contains(r, i, j)
        <==> Contains(NW(r), i, j) || Contains(NE(r), i, j) || Contains(SW(r), i, j) || Contains(SE(r), i, j)
    ensures !(Contains(NW(r), i, j) && Contains(NE(r), i, j))
    ensures !(Contains(NW(r), i, j) && Contains(SW(r), i, j))
    ensures !(Contains(NW(r), i, j) && Contains(SE(r), i, j))
    ensures !(Contains(NE(r), i, j) && Contains(SW(r), i, j))
    ensures !(Contains(NE(r), i, j) && Contains(SE(r), i, j))
    ensures !(Contains(SW(r), i, j) && Contains(SE(r), i, j))
  {
  }

  lemma MulNonneg(x: int, y: int)
    requires x >= 0 && y >= 0
    ensures x * y >= 0
    ensures x >= 1 && y >= 1 ==> x * y >= 1
  {
    if x >= 1 && y >= 1 {
      MulLe(1, x, y);
      MulLe(1, y, 1);
    }
  }

  /** The quadrant areas add up to the parent's area. */
  lemma QuadrantAreas(r: Rect)
    requires WellFormed(r)
    ensures Area(NW(r)) + Area(NE(r)) + Area(SW(r)) + Area(SE(r)) == Area(r)
  {
    var h, w := r.endRow - r.startRow, r.endCol - r.startCol;
    var a, b := h / 2, w / 2;
    assert Area(NW(r)) == b * a;
    assert Area(NE(r)) == (w - b) * a;
    assert Area(SW(r)) == b * (h - a);
    assert Area(SE(r)) == (w - b) * (h - a);
    MulAdd(b, w - b, a);
    MulAdd(b, w - b, h - a);
    MulAdd(a, h - a, w);
  }

  /** Splitting a block of two or more cells gives four strictly smaller blocks:
      the recursion of divide and divideRegulated terminates. */
  lemma QuadrantsShrink(r: Rect)
    requires WellFormed(r) && Area(r) >= 2
    ensures 0 <= Area(NW(r)) < Area(r) && 0 <= Area(NE(r)) < Area(r)
    ensures 0 <= Area(SW(r)) < Area(r) && 0 <= Area(SE(r)) < Area(r)
  {
    var h, w := r.endRow - r.startRow, r.endCol - r.startCol;
    var a, b := h / 2, w / 2;
    QuadrantAreas(r);
    assert h >= 1 && w >= 1 && (h >= 2 || w >= 2);
    MulNonneg(b, a);
    MulNonneg(w - b, a);
    MulNonneg(b, h - a);
    MulNonneg(w - b, h - a);
    assert Area(NW(r)) == b * a;
    assert Area(NE(r)) == (w - b) * a;
    assert Area(SW(r)) == b * (h - a);
    assert Area(SE(r)) == (w - b) * (h - a);
  }

  // ---------------------------------------------------------------------
  // Shape of a tree.

  /** Every internal node has the four quadrants of its block as children, one level deeper. */
  predicate WellFormedTree(n: Node) {
    WellFormed(n.rect) &&
    match n
    case Leaf(_, _, _) => true
    case Split(_, d, r, nw, ne, sw, se) =>
      nw.rect == NW(r) && ne.rect == NE(r) && sw.rect == SW(r) && se.rect == SE(r) &&
      nw.depth == d + 1 && ne.depth == d + 1 && sw.depth == d + 1 && se.depth == d + 1 &&
      WellFormedTree(nw) && WellFormedTree(ne) && WellFormedTree(sw) && WellFormedTree(se)
  }

  /** Every node's block lies inside a grid of the given size. */
  predicate TreeWithin(n: Node, rows: int, cols: int) {
    Within(n.rect, rows, cols) &&
    match n
    case Leaf(_, _, _) => true
    case Split(_, _, _, nw, ne, sw, se) =>
      TreeWithin(nw, rows, cols) && TreeWithin(ne, rows, cols) &&
      TreeWithin(sw, rows, cols) && TreeWithin(se, rows, cols)
  }

  /** Every node holds the average colour of its block of `image`. */
  ghost predicate Averaged(n: Node, image: array2<Rgb>)
    reads image
  {
    InGrid(n.rect, image) && n.color == Average(image, n.rect) &&
    match n
    case Leaf(_, _, _) => true
    case Split(_, _, _, nw, ne, sw, se) =>
      Averaged(nw, image) && Averaged(ne, image) && Averaged(sw, image) && Averaged(se, image)
  }

  /** Block `a` lies inside block `b`. */
  predicate Inside(a: Rect, b: Rect) {
    b.startRow <= a.startRow && a.endRow <= b.endRow && b.startCol <= a.startCol && a.endCol <= b.endCol
  }

  /** A well-formed tree inside the grid has every node inside the grid. */
  lemma {:induction false} WellFormedWithin(n: Node, rows: int, cols: int)
    requires WellFormedTree(n) && Within(n.rect, rows, cols)
    ensures TreeWithin(n, rows, cols)
  {
    if n.Split? {
      WellFormedWithin(n.nw, rows, cols);
      WellFormedWithin(n.ne, rows, cols);
      WellFormedWithin(n.sw, rows, cols);
      WellFormedWithin(n.se, rows, cols);
    }
  }

  /** Number of nodes. */
  function Count(n: Node): nat {
    match n
    case Leaf(_, _, _) => 1
    case Split(_, _, _, nw, ne, sw, se) => 1 + Count(nw) + Count(ne) + Count(sw) + Count(se)
  }

  /** Number of internal nodes, each of which the source counts with `size += 4`. */
  function Splits(n: Node): nat {
    match n
    case Leaf(_, _, _) => 0
    case Split(_, _, _, nw, ne, sw, se) => 1 + Splits(nw) + Splits(ne) + Splits(sw) + Splits(se)
  }

  /** A tree of four-way splits has one node plus four per split. */
  lemma {:induction false} CountBySplits(n: Node)
    ensures Count(n) == 1 + 4 * Splits(n)
  {
    if n.Split? {
      CountBySplits(n.nw);
      CountBySplits(n.ne);
      CountBySplits(n.sw);
      CountBySplits(n.se);
    }
  }

  /** Sum of the leaves' areas. */
  function LeafArea(n: Node): int {
    match n
    case Leaf(_, _, r) => Area(r)
    case Split(_, _, _, nw, ne, sw, se) => LeafArea(nw) + LeafArea(ne) + LeafArea(sw) + LeafArea(se)
  }

  /** Number of leaves that cover at least one cell. */
  function NonEmptyLeaves(n: Node): nat {
    match n
    case Leaf(_, _, r) => if Area(r) > 0 then 1 else 0
    case Split(_, _, _, nw, ne, sw, se) =>
      NonEmptyLeaves(nw) + NonEmptyLeaves(ne) + NonEmptyLeaves(sw) + NonEmptyLeaves(se)
  }

  /** The leaves of a well-formed tree cover its block exactly. */
  lemma {:induction false} LeavesCoverBlock(n: Node)
    requires WellFormedTree(n)
    ensures LeafArea(n) == Area(n.rect)
  {
    if n.Split? {
      LeavesCoverBlock(n.nw);
      LeavesCoverBlock(n.ne);
      LeavesCoverBlock(n.sw);
      LeavesCoverBlock(n.se);
      QuadrantAreas(n.rect);
    }
  }

  /** Every leaf covers at most one cell. */
  predicate SmallLeaves(n: Node) {
    match n
    case Leaf(_, _, r) => Area(r) < 2
    case Split(_, _, _, nw, ne, sw, se) => SmallLeaves(nw) && SmallLeaves(ne) && SmallLeaves(sw) && SmallLeaves(se)
  }

  /** When every leaf holds at most one cell, the non-empty leaves are the cells themselves. */
  lemma {:induction false} SmallLeavesAreCells(n: Node)
    requires WellFormedTree(n) && SmallLeaves(n)
    ensures NonEmptyLeaves(n) == LeafArea(n)
  {
    match n
    case Leaf(_, _, r) =>
      MulNonneg(r.endCol - r.startCol, r.endRow - r.startRow);
    case Split(_, _, _, nw, ne, sw, se) =>
      SmallLeavesAreCells(nw);
      SmallLeavesAreCells(ne);
      SmallLeavesAreCells(sw);
      SmallLeavesAreCells(se);
  }

  // ---------------------------------------------------------------------
  // divide.

  /** A new child: the average colour of its block, one level below `depth`. */
  function Child(image: array2<Rgb>, r: Rect, depth: nat): Node
    reads image
    requires InGrid(r, image)
  {
    Leaf(Average(image, r), depth + 1, r)
  }

  /** The tree QuadTree.divide leaves below n: a block of fewer than two cells is left as
      it is, any other block gets four new children, each divided in turn. */
  function Divided(n: Node, image: array2<Rgb>): Node
    reads image
    requires InGrid(n.rect, image)
    decreases Area(n.rect)
  {
    var r := n.rect;
    if Area(r) < 2 then n
    else
      QuadrantsShrink(r);
      Split(n.color, n.depth, r,
        Divided(Child(image, NW(r), n.depth), image),
        Divided(Child(image, NE(r), n.depth), image),
        Divided(Child(image, SW(r), n.depth), image),
        Divided(Child(image, SE(r), n.depth), image))
  }

  /** Dividing keeps the node's own colour, depth and block, and yields a well-formed tree
      whose every node below n holds its block's average and whose every leaf covers at
      most one cell. */
  lemma {:induction false} DividedShape(n: Node, image: array2<Rgb>)
    requires InGrid(n.rect, image) && n.Leaf?
    ensures var t := Divided(n, image);
      t.color == n.color && t.depth == n.depth && t.rect == n.rect &&
      WellFormedTree(t) && SmallLeaves(t) &&
      (n.color == Average(image, n.rect) ==> Averaged(t, image))
    decreases Area(n.rect)
  {
    var r := n.rect;
    if Area(r) >= 2 {
      QuadrantsShrink(r);
      DividedShape(Child(image, NW(r), n.depth), image);
      DividedShape(Child(image, NE(r), n.depth), image);
      DividedShape(Child(image, SW(r), n.depth), image);
      DividedShape(Child(image, SE(r), n.depth), image);
    }
  }

  /** A fully divided tree has one non-empty leaf per cell of its block. */
  lemma DividedLeavesArePixels(n: Node, image: array2<Rgb>)
    requires InGrid(n.rect, image) && n.Leaf?
    ensures NonEmptyLeaves(Divided(n, image)) == Area(n.rect)
  {
    DividedShape(n, image);
    SmallLeavesAreCells(Divided(n, image));
    LeavesCoverBlock(Divided(n, image));
  }

  // ---------------------------------------------------------------------
  // divideRegulated.

  /** Math.pow(4, depth), as the exact integer power 4^depth. */
  function Pow4(d: nat): (p: nat)
    ensures p >= 1
  {
    if d == 0 then 1 else 4 * Pow4(d - 1)
  }

  /** The divisor of divideRegulated's error, `(endRow - startCol) * (endRow - startRow)`. */
  function ErrorDivisor(r: Rect): int {
    (r.endRow - r.startCol) * (r.endRow - r.startRow)
  }

  /** `error < maxAcceptableError` with `error = |colorDistance / divisor|`. A zero divisor
      makes the error NaN or infinite, and neither compares below the tolerance. */
  predicate ErrorBelow(colorDistance: nat, r: Rect, tolerance: real) {
    var d := ErrorDivisor(r);
    d != 0 && (colorDistance as real) < tolerance * (Abs(d) as real)
  }

  /** The reasons divideRegulated leaves a node unsplit, in the order it tests them. */
  ghost predicate Stops(n: Node, image: array2<Rgb>, maxLeaves: int, tolerance: real)
    reads image
    requires InGrid(n.rect, image)
  {
    Area(n.rect) < 2
    || Pow4(n.depth) > maxLeaves
    || ErrorBelow(SqDistance(image, n.rect, Average(image, n.rect)), n.rect, tolerance)
  }

  /** The tree QuadTree.divideRegulated leaves below n. */
  function Regulated(n: Node, image: array2<Rgb>, maxLeaves: int, tolerance: real): Node
    reads image
    requires InGrid(n.rect, image)
    decreases Area(n.rect)
  {
    var r := n.rect;
    if Area(r) < 2 then n
    else if Pow4(n.depth) > maxLeaves then n
    else if ErrorBelow(SqDistance(image, r, Average(image, r)), r, tolerance) then n
    else
      QuadrantsShrink(r);
      Split(n.color, n.depth, r,
        Regulated(Child(image, NW(r), n.depth), image, maxLeaves, tolerance),
        Regulated(Child(image, NE(r), n.depth), image, maxLeaves, tolerance),
        Regulated(Child(image, SW(r), n.depth), image, maxLeaves, tolerance),
        Regulated(Child(image, SE(r), n.depth), image, maxLeaves, tolerance))
  }

  /** Every internal node passed all three tests and every leaf failed one of them. */
  ghost predicate Decided(t: Node, image: array2<Rgb>, maxLeaves: int, tolerance: real)
    reads image
  {
    InGrid(t.rect, image) &&
    match t
    case Leaf(_, _, _) => Stops(t, image, maxLeaves, tolerance)
    case Split(_, _, _, nw, ne, sw, se) =>
      !Stops(t, image, maxLeaves, tolerance) &&
      Decided(nw, image, maxLeaves, tolerance) && Decided(ne, image, maxLeaves, tolerance) &&
      Decided(sw, image, maxLeaves, tolerance) && Decided(se, image, maxLeaves, tolerance)
  }

  /** divideRegulated builds a well-formed tree of averages below a leaf, splitting exactly
      the nodes that pass its tests. */
  lemma {:induction false} RegulatedShape(n: Node, image: array2<Rgb>, maxLeaves: int, tolerance: real)
    requires InGrid(n.rect, image) && n.Leaf?
    ensures var t := Regulated(n, image, maxLeaves, tolerance);
      t.color == n.color && t.depth == n.depth && t.rect == n.rect &&
      WellFormedTree(t) && Decided(t, image, maxLeaves, tolerance) &&
      (n.color == Average(image, n.rect) ==> Averaged(t, image))
    decreases Area(n.rect)
  {
    var r := n.rect;
    if !Stops(n, image, maxLeaves, tolerance) {
      QuadrantsShrink(r);
      RegulatedShape(Child(image, NW(r), n.depth), image, maxLeaves, tolerance);
      RegulatedShape(Child(image, NE(r), n.depth), image, maxLeaves, tolerance);
      RegulatedShape(Child(image, SW(r), n.depth), image, maxLeaves, tolerance);
      RegulatedShape(Child(image, SE(r), n.depth), image, maxLeaves, tolerance);
    }
  }

  /** A leaf budget below 4^depth keeps the node unsplit; with maxLeaves < 1 the root
      stays the only node. */
  lemma BudgetStopsAtRoot(n: Node, image: array2<Rgb>, maxLeaves: int, tolerance: real)
    requires InGrid(n.rect, image)
    requires Pow4(n.depth) > maxLeaves
    ensures Regulated(n, image, maxLeaves, tolerance) == n
  {
  }

  /** With a tolerance of zero or less the error test never stops a split. */
  lemma NoToleranceNoStop(colorDistance: nat, r: Rect, tolerance: real)
    requires tolerance <= 0.0
    ensures !ErrorBelow(colorDistance, r, tolerance)
  {
    var d := ErrorDivisor(r);
    if d != 0 {
      assert tolerance * (Abs(d) as real) <= 0.0;
    }
  }

  /** Every internal node has 4^depth within the budget. */
  predicate WithinBudget(t: Node, maxLeaves: int) {
    match t
    case Leaf(_, _, _) => true
    case Split(_, d, _, nw, ne, sw, se) =>
      Pow4(d) <= maxLeaves &&
      WithinBudget(nw, maxLeaves) && WithinBudget(ne, maxLeaves) &&
      WithinBudget(sw, maxLeaves) && WithinBudget(se, maxLeaves)
  }

  /** With no error tolerance, divideRegulated builds the same tree as divide as long as
      the budget admits every split divide makes. */
  lemma {:induction false} RegulatedIsDivided(n: Node, image: array2<Rgb>, maxLeaves: int, tolerance: real)
    requires InGrid(n.rect, image) && tolerance <= 0.0
    requires WithinBudget(Divided(n, image), maxLeaves)
    ensures Regulated(n, image, maxLeaves, tolerance) == Divided(n, image)
    decreases Area(n.rect)
  {
    var r := n.rect;
    if Area(r) >= 2 {
      QuadrantsShrink(r);
      NoToleranceNoStop(SqDistance(image, r, Average(image, r)), r, tolerance);
      RegulatedIsDivided(Child(image, NW(r), n.depth), image, maxLeaves, tolerance);
      RegulatedIsDivided(Child(image, NE(r), n.depth), image, maxLeaves, tolerance);
      RegulatedIsDivided(Child(image, SW(r), n.depth), image, maxLeaves, tolerance);
      RegulatedIsDivided(Child(image, SE(r), n.depth), image, maxLeaves, tolerance);
    }
  }
}
