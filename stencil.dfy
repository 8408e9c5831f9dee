/** The two 3x3 kernels of the deep-node branches of QuadTree.edgeDetector and
    QuadTree.motionBlur; Filter.motionBlur applies the very same blur kernel.
    Each kernel is specified by a position-independent formula over the in-grid
    neighbours of a cell (`EdgeAt`, `BlurAt`), and computed by a method that
    follows the source's nine boundary cases (`EdgePixel`, `BlurPixel`). Both
    test the boundaries against the whole grid, so both need a grid of at least
    two rows and two columns: at a corner they read a 2x2 block. */
module Stencil {
  import opened Colors
  import opened Regions

  /** Divisors of the blur kernel: the centre, the orthogonal and the diagonal neighbours. */
  const Fourth := 4
  const Eighth := 8
  const Sixteenth := 16

  /** Weights of the centre pixel in edge detection, by its position in the grid. */
  const CornerPixelWeight := 3
  const SidePixelWeight := 5
  const MiddlePixelWeight := 8

  predicate Stencilable(rows: int, cols: int) {
    rows >= 2 && cols >= 2
  }

  predicate InRange(g: array2<Rgb>, x: int, y: int) {
    0 <= x < g.Length0 && 0 <= y < g.Length1
  }

  function Max(a: int, b: int): int { if a < b then b else a }
  function Min(a: int, b: int): int { if a < b then a else b }

  /** The in-grid part of the 3x3 block centred on (x, y). */
  function Window(g: array2<Rgb>, x: int, y: int): (w: Rect)
    requires InRange(g, x, y)
    ensures InGrid(w, g) && Contains(w, x, y)
  {
    Rect(Max(0, x - 1), Max(0, y - 1), Min(g.Length0, x + 2), Min(g.Length1, y + 2))
  }

  /** The sum of the in-grid neighbours of (x, y), the centre excluded. */
  function Neighbours(g: array2<Rgb>, x: int, y: int): Rgb
    reads g
    requires InRange(g, x, y)
  {
    Minus(RegionSum(g, Window(g, x, y)), g[x, y])
  }

  /** The centre weight of edge detection: a corner of the grid, a side of the grid, or inside. */
  function EdgeWeight(rows: int, cols: int, x: int, y: int): int {
    var rowEdge := x - 1 < 0 || x + 2 > rows;
    var colEdge := y - 1 < 0 || y + 2 > cols;
    if rowEdge && colEdge then CornerPixelWeight
    else if rowEdge || colEdge then SidePixelWeight
    else MiddlePixelWeight
  }

  /** The edge kernel: |weight * centre - sum of in-grid neighbours|, per channel. */
  function EdgeAt(g: array2<Rgb>, x: int, y: int): Rgb
    reads g
    requires InRange(g, x, y)
  {
    AbsRgb(Minus(Scale(EdgeWeight(g.Length0, g.Length1, x, y), g[x, y]), Neighbours(g, x, y)))
  }

  /** The weight table equals the number of neighbours the kernel subtracts. */
  lemma EdgeWeightCountsNeighbours(g: array2<Rgb>, x: int, y: int)
    requires Stencilable(g.Length0, g.Length1) && InRange(g, x, y)
    ensures EdgeWeight(g.Length0, g.Length1, x, y) == Area(Window(g, x, y)) - 1
  {
    var w := Window(g, x, y);
    var h, v := w.endRow - w.startRow, w.endCol - w.startCol;
    assert 2 <= h <= 3 && 2 <= v <= 3;
    assert h == 2 <==> (x - 1 < 0 || x + 2 > g.Length0);
    assert v == 2 <==> (y - 1 < 0 || y + 2 > g.Length1);
  }

  /** Edge detection gives black wherever the neighbourhood is uniform. */
  lemma UniformEdgeIsBlack(g: array2<Rgb>, x: int, y: int)
    requires Stencilable(g.Length0, g.Length1) && InRange(g, x, y)
    requires forall i, j :: Contains(Window(g, x, y), i, j) ==> g[i, j] == g[x, y]
    ensures EdgeAt(g, x, y) == Black
  {
    var w := Window(g, x, y);
    var c := g[x, y];
    var n := (w.endRow - w.startRow) * (w.endCol - w.startCol);
    EdgeWeightCountsNeighbours(g, x, y);
    var k := EdgeWeight(g.Length0, g.Length1, x, y);
    assert k == n - 1;
    SumBounds(g, w.startRow, w.endRow, w.startCol, w.endCol, Red, c.red, c.red);
    SumBounds(g, w.startRow, w.endRow, w.startCol, w.endCol, Green, c.green, c.green);
    SumBounds(g, w.startRow, w.endRow, w.startCol, w.endCol, Blue, c.blue, c.blue);
    var s := RegionSum(g, w);
    assert s == Rgb(c.red * n, c.green * n, c.blue * n);
    MulAdd(k, 1, c.red);
    MulAdd(k, 1, c.green);
    MulAdd(k, 1, c.blue);
  }

  /** The edge kernel of QuadTree.edgeDetector for one cell: the nine boundary cases
      choose the window and the centre weight, then a double loop adds the weighted
      centre and subtracts every other cell of the window. */
  method EdgePixel(origArray: array2<Rgb>, x: int, y: int) returns (e: Rgb)
    requires Stencilable(origArray.Length0, origArray.Length1) && InRange(origArray, x, y)
    ensures e == EdgeAt(origArray, x, y)
  {
    var rows, cols := origArray.Length0, origArray.Length1;
    var iLo, iHi, jLo, jHi, weight;
    if x - 1 < 0 {                       // first row
      if y - 1 < 0 {                     // first column
        iLo, iHi, jLo, jHi, weight := x, x + 2, y, y + 2, CornerPixelWeight;
      } else if y + 2 > cols {           // last column
        iLo, iHi, jLo, jHi, weight := x, x + 2, y - 1, y + 1, CornerPixelWeight;
      } else {
        iLo, iHi, jLo, jHi, weight := x, x + 2, y - 1, y + 2, SidePixelWeight;
      }
    } else if x + 2 > rows {             // last row
      if y - 1 < 0 {
        iLo, iHi, jLo, jHi, weight := x - 1, x + 1, y, y + 2, CornerPixelWeight;
      } else if y + 2 > cols {
        iLo, iHi, jLo, jHi, weight := x - 1, x + 1, y - 1, y + 1, CornerPixelWeight;
      } else {
        iLo, iHi, jLo, jHi, weight := x - 1, x + 1, y - 1, y + 2, SidePixelWeight;
      }
    } else if y - 1 < 0 {
      iLo, iHi, jLo, jHi, weight := x - 1, x + 2, y, y + 2, SidePixelWeight;
    } else if y + 2 > cols {
      iLo, iHi, jLo, jHi, weight := x - 1, x + 2, y - 1, y + 1, SidePixelWeight;
    } else {
      iLo, iHi, jLo, jHi, weight := x - 1, x + 2, y - 1, y + 2, MiddlePixelWeight;
    }
    assert Rect(iLo, jLo, iHi, jHi) == Window(origArray, x, y);
    assert weight == EdgeWeight(rows, cols, x, y);
    var total := WeightedWindowTotal(origArray, Rect(iLo, jLo, iHi, jHi), x, y, weight);
    e := Rgb(Abs(total.red), Abs(total.green), Abs(total.blue));
  }

  /** The double loop of the edge kernel over the window w: the centre (x, y) adds
      `weight` times its value, every other cell of w subtracts its value. */
  method WeightedWindowTotal(origArray: array2<Rgb>, w: Rect, x: int, y: int, weight: int)
    returns (total: Rgb)
    requires InGrid(w, origArray) && Contains(w, x, y)
    ensures total == Minus(Scale(weight, origArray[x, y]),
                           Minus(RegionSum(origArray, w), origArray[x, y]))
  {
    ghost var c := origArray[x, y];
    ghost var centre := Plus(Scale(weight, c), c);
    var redTotal, greenTotal, blueTotal := 0, 0, 0;
    for i := w.startRow to w.endRow
      invariant Rgb(redTotal, greenTotal, blueTotal)
             == Minus(if x < i then centre else Black, Sum(origArray, w.startRow, i, w.startCol, w.endCol))
    {
      for j := w.startCol to w.endCol
        invariant Rgb(redTotal, greenTotal, blueTotal)
               == Minus(if x < i || (x == i && y < j) then centre else Black,
                        Plus(Sum(origArray, w.startRow, i, w.startCol, w.endCol),
                             RowSum(origArray, i, w.startCol, j)))
      {
        var p := origArray[i, j];
        if i == x && j == y {
          redTotal := redTotal + weight * p.red;
          greenTotal := greenTotal + weight * p.green;
          blueTotal := blueTotal + weight * p.blue;
        } else {
          redTotal := redTotal - p.red;
          greenTotal := greenTotal - p.green;
          blueTotal := blueTotal - p.blue;
        }
      }
    }
    total := Rgb(redTotal, greenTotal, blueTotal);
  }

  // ---------------------------------------------------------------------
  // Blur kernel.

  /** A cell of the grid, or nothing when (i, j) lies outside it. */
  function Cell(g: array2<Rgb>, i: int, j: int): (p: Option<Rgb>)
    reads g
    ensures p.Some? <==> 0 <= i < g.Length0 && 0 <= j < g.Length1
  {
    if 0 <= i < g.Length0 && 0 <= j < g.Length1 then Some(g[i, j]) else None
  }

  /** The 3x3 block around a cell, as values: rows grow downwards, columns to the right. */
  datatype Hood = Hood(centre: Rgb, up: Option<Rgb>, down: Option<Rgb>, left: Option<Rgb>, right: Option<Rgb>,
                       upLeft: Option<Rgb>, upRight: Option<Rgb>, downLeft: Option<Rgb>, downRight: Option<Rgb>)

  function Around(g: array2<Rgb>, x: int, y: int): Hood
    reads g
    requires InRange(g, x, y)
  {
    Hood(g[x, y], Cell(g, x - 1, y), Cell(g, x + 1, y), Cell(g, x, y - 1), Cell(g, x, y + 1),
         Cell(g, x - 1, y - 1), Cell(g, x - 1, y + 1), Cell(g, x + 1, y - 1), Cell(g, x + 1, y + 1))
  }

  /** A neighbour's share of the blur, with Java's truncating division; nothing for a
      neighbour outside the grid. */
  function Share(p: Option<Rgb>, d: int): Rgb
    requires d > 0
  {
    match p
    case None => Black
    case Some(c) => DivRgb(c, d)
  }

  /** The blur kernel on a neighbourhood: centre/4 + each present orthogonal
      neighbour/8 + each present diagonal neighbour/16, every term truncated, then the
      absolute value. */
  function Blurred(h: Hood): Rgb {
    var orthogonal := Plus(Plus(Share(h.up, Eighth), Share(h.down, Eighth)),
                           Plus(Share(h.left, Eighth), Share(h.right, Eighth)));
    var diagonal := Plus(Plus(Share(h.upLeft, Sixteenth), Share(h.upRight, Sixteenth)),
                         Plus(Share(h.downLeft, Sixteenth), Share(h.downRight, Sixteenth)));
    AbsRgb(Plus(DivRgb(h.centre, Fourth), Plus(orthogonal, diagonal)))
  }

  /** The blur of cell (x, y) of the grid. */
  function BlurAt(g: array2<Rgb>, x: int, y: int): Rgb
    reads g
    requires InRange(g, x, y)
  {
    Blurred(Around(g, x, y))
  }

  /** Dividing by the same positive divisor keeps the order. */
  lemma DivMonotone(v: int, m: int, d: int)
    requires 0 <= v <= m && d > 0
    ensures v / d <= m / d
  {
    if v / d > m / d {
      MulLe(m / d + 1, v / d, d);
    }
  }

  lemma ShareBounds(p: Option<Rgb>, d: int, ch: Channel, m: int)
    requires d > 0 && m >= 0
    requires p.Some? ==> 0 <= Chan(p.value, ch) <= m
    ensures 0 <= Chan(Share(p, d), ch) <= m / d
  {
    if p.Some? {
      ChanDiv(p.value, d, ch);
      var v := Chan(p.value, ch);
      assert Trunc(v, d) == v / d;
      DivMonotone(v, m, d);
    }
  }

  /** Channel `ch` of the four orthogonal blur terms. */
  function OrthogonalSum(h: Hood, ch: Channel): int {
    Chan(Share(h.up, Eighth), ch) + Chan(Share(h.down, Eighth), ch)
    + Chan(Share(h.left, Eighth), ch) + Chan(Share(h.right, Eighth), ch)
  }

  /** Channel `ch` of the four diagonal blur terms. */
  function DiagonalSum(h: Hood, ch: Channel): int {
    Chan(Share(h.upLeft, Sixteenth), ch) + Chan(Share(h.upRight, Sixteenth), ch)
    + Chan(Share(h.downLeft, Sixteenth), ch) + Chan(Share(h.downRight, Sixteenth), ch)
  }

  /** Channel `ch` of the nine blur terms, before the absolute value. */
  function BlurSum(h: Hood, ch: Channel): int {
    Chan(DivRgb(h.centre, Fourth), ch) + OrthogonalSum(h, ch) + DiagonalSum(h, ch)
  }

  lemma BlurChannel(h: Hood, ch: Channel)
    ensures Chan(Blurred(h), ch) == Abs(BlurSum(h, ch))
  {
    var o := Plus(Plus(Share(h.up, Eighth), Share(h.down, Eighth)),
                  Plus(Share(h.left, Eighth), Share(h.right, Eighth)));
    var d := Plus(Plus(Share(h.upLeft, Sixteenth), Share(h.upRight, Sixteenth)),
                  Plus(Share(h.downLeft, Sixteenth), Share(h.downRight, Sixteenth)));
    var t := Plus(DivRgb(h.centre, Fourth), Plus(o, d));
    assert Blurred(h) == AbsRgb(t);
    assert Chan(t, ch) == BlurSum(h, ch) by {
      match ch
      case Red =>
      case Green =>
      case Blue =>
    }
  }

  /** Every cell of the neighbourhood has channel `ch` in [0, m]. */
  predicate HoodBounded(h: Hood, ch: Channel, m: int) {
    0 <= Chan(h.centre, ch) <= m &&
    (h.up.Some? ==> 0 <= Chan(h.up.value, ch) <= m) && (h.down.Some? ==> 0 <= Chan(h.down.value, ch) <= m) &&
    (h.left.Some? ==> 0 <= Chan(h.left.value, ch) <= m) && (h.right.Some? ==> 0 <= Chan(h.right.value, ch) <= m) &&
    (h.upLeft.Some? ==> 0 <= Chan(h.upLeft.value, ch) <= m) && (h.upRight.Some? ==> 0 <= Chan(h.upRight.value, ch) <= m) &&
    (h.downLeft.Some? ==> 0 <= Chan(h.downLeft.value, ch) <= m) && (h.downRight.Some? ==> 0 <= Chan(h.downRight.value, ch) <= m)
  }

  lemma OrthogonalBounds(h: Hood, ch: Channel, m: int)
    requires HoodBounded(h, ch, m)
    ensures 0 <= OrthogonalSum(h, ch) <= 4 * (m / Eighth)
  {
    ShareBounds(h.up, Eighth, ch, m);
    ShareBounds(h.down, Eighth, ch, m);
    ShareBounds(h.left, Eighth, ch, m);
    ShareBounds(h.right, Eighth, ch, m);
  }

  lemma DiagonalBounds(h: Hood, ch: Channel, m: int)
    requires HoodBounded(h, ch, m)
    ensures 0 <= DiagonalSum(h, ch) <= 4 * (m / Sixteenth)
  {
    ShareBounds(h.upLeft, Sixteenth, ch, m);
    ShareBounds(h.upRight, Sixteenth, ch, m);
    ShareBounds(h.downLeft, Sixteenth, ch, m);
    ShareBounds(h.downRight, Sixteenth, ch, m);
  }

  /** The blur weights 1/4 + 4 * 1/8 + 4 * 1/16 add up to 1: the nine terms of a
      neighbourhood with channel values in [0, m] add up to a value in [0, m]. */
  lemma BlurSumBounds(h: Hood, ch: Channel, m: int)
    requires HoodBounded(h, ch, m)
    ensures 0 <= BlurSum(h, ch) <= m
  {
    ShareBounds(Some(h.centre), Fourth, ch, m);
    assert Share(Some(h.centre), Fourth) == DivRgb(h.centre, Fourth);
    OrthogonalBounds(h, ch, m);
    DiagonalBounds(h, ch, m);
    BlurWeightsSumToOne(Chan(DivRgb(h.centre, Fourth), ch), OrthogonalSum(h, ch), DiagonalSum(h, ch), m);
  }

  /** 1/4 + 4 * 1/8 + 4 * 1/16 = 1, with truncating division. */
  lemma BlurWeightsSumToOne(centre: int, orthogonal: int, diagonal: int, m: int)
    requires m >= 0
    requires 0 <= centre <= m / 4 && 0 <= orthogonal <= 4 * (m / 8) && 0 <= diagonal <= 4 * (m / 16)
    ensures 0 <= centre + orthogonal + diagonal <= m
  {
    assert 4 * (m / 4) <= m && 8 * (m / 8) <= m && 16 * (m / 16) <= m;
  }

  /** A neighbourhood with channel values in [0, m] blurs to a value in [0, m]. */
  lemma BlurredBounds(h: Hood, ch: Channel, m: int)
    requires HoodBounded(h, ch, m)
    ensures 0 <= Chan(Blurred(h), ch) <= m
  {
    BlurSumBounds(h, ch, m);
    BlurChannel(h, ch);
  }

  /** In the grid: a 3x3 block with channel values in [0, m] blurs to a value in [0, m]. */
  lemma BlurBounds(g: array2<Rgb>, x: int, y: int, ch: Channel, m: int)
    requires InRange(g, x, y)
    requires forall i, j :: Contains(Window(g, x, y), i, j) ==> 0 <= Chan(g[i, j], ch) <= m
    ensures 0 <= Chan(BlurAt(g, x, y), ch) <= m
  {
    var w := Window(g, x, y);
    assert Contains(w, x, y);
    if InRange(g, x - 1, y) { assert Contains(w, x - 1, y); }
    if InRange(g, x + 1, y) { assert Contains(w, x + 1, y); }
    if InRange(g, x, y - 1) { assert Contains(w, x, y - 1); }
    if InRange(g, x, y + 1) { assert Contains(w, x, y + 1); }
    if InRange(g, x - 1, y - 1) { assert Contains(w, x - 1, y - 1); }
    if InRange(g, x - 1, y + 1) { assert Contains(w, x - 1, y + 1); }
    if InRange(g, x + 1, y - 1) { assert Contains(w, x + 1, y - 1); }
    if InRange(g, x + 1, y + 1) { assert Contains(w, x + 1, y + 1); }
    BlurredBounds(Around(g, x, y), ch, m);
  }

  /** `t` holds, channel by channel, the eight neighbour terms of the blur of `h`. */
  predicate NeighbourTotal(t: Rgb, h: Hood) {
    t.red == OrthogonalSum(h, Red) + DiagonalSum(h, Red) &&
    t.green == OrthogonalSum(h, Green) + DiagonalSum(h, Green) &&
    t.blue == OrthogonalSum(h, Blue) + DiagonalSum(h, Blue)
  }

  /** The blur kernel for one cell, as the nine boundary cases of QuadTree.motionBlur
      and Filter.motionBlur write it: each case adds exactly the neighbours it has.
      The three cases on the row are the three helpers below. */
  method BlurPixel(origArray: array2<Rgb>, x: int, y: int) returns (b: Rgb)
    requires Stencilable(origArray.Length0, origArray.Length1) && InRange(origArray, x, y)
    ensures b == BlurAt(origArray, x, y)
  {
    var centre := DivRgb(origArray[x, y], Fourth);
    var shares;
    if x - 1 < 0 {                        // no x - 1
      shares := FirstRowShares(origArray, x, y);
    } else if x + 2 > origArray.Length0 { // no x + 1
      shares := LastRowShares(origArray, x, y);
    } else {
      shares := InnerRowShares(origArray, x, y);
    }
    var total := Plus(centre, shares);
    ghost var h := Around(origArray, x, y);
    assert total.red == BlurSum(h, Red);
    assert total.green == BlurSum(h, Green);
    assert total.blue == BlurSum(h, Blue);
    BlurChannel(h, Red);
    BlurChannel(h, Green);
    BlurChannel(h, Blue);
    b := AbsRgb(total);
  }

  /** The neighbour terms of a cell on the first row. */
  method FirstRowShares(origArray: array2<Rgb>, x: int, y: int) returns (total: Rgb)
    requires Stencilable(origArray.Length0, origArray.Length1) && InRange(origArray, x, y) && x == 0
    ensures NeighbourTotal(total, Around(origArray, x, y))
  {
    var cols := origArray.Length1;
    total := Black;
    if y - 1 < 0 {                        // no y - 1
      total := Plus(total, DivRgb(origArray[x, y + 1], Eighth));
      total := Plus(total, DivRgb(origArray[x + 1, y], Eighth));
      total := Plus(total, DivRgb(origArray[x + 1, y + 1], Sixteenth));
    } else if y + 2 > cols {              // no y + 1
      total := Plus(total, DivRgb(origArray[x, y - 1], Eighth));
      total := Plus(total, DivRgb(origArray[x + 1, y], Eighth));
      total := Plus(total, DivRgb(origArray[x + 1, y - 1], Sixteenth));
    } else {
      total := Plus(total, DivRgb(origArray[x, y - 1], Eighth));
      total := Plus(total, DivRgb(origArray[x, y + 1], Eighth));
      total := Plus(total, DivRgb(origArray[x + 1, y], Eighth));
      total := Plus(total, DivRgb(origArray[x + 1, y + 1], Sixteenth));
      total := Plus(total, DivRgb(origArray[x + 1, y - 1], Sixteenth));
    }
  }

  /** The neighbour terms of a cell on the last row. */
  method LastRowShares(origArray: array2<Rgb>, x: int, y: int) returns (total: Rgb)
    requires Stencilable(origArray.Length0, origArray.Length1) && InRange(origArray, x, y)
    requires x == origArray.Length0 - 1
    ensures NeighbourTotal(total, Around(origArray, x, y))
  {
    var cols := origArray.Length1;
    total := Black;
    if y - 1 < 0 {
      total := Plus(total, DivRgb(origArray[x, y + 1], Eighth));
      total := Plus(total, DivRgb(origArray[x - 1, y], Eighth));
      total := Plus(total, DivRgb(origArray[x - 1, y + 1], Sixteenth));
    } else if y + 2 > cols {
      total := Plus(total, DivRgb(origArray[x, y - 1], Eighth));
      total := Plus(total, DivRgb(origArray[x - 1, y], Eighth));
      total := Plus(total, DivRgb(origArray[x - 1, y - 1], Sixteenth));
    } else {
      total := Plus(total, DivRgb(origArray[x, y - 1], Eighth));
      total := Plus(total, DivRgb(origArray[x, y + 1], Eighth));
      total := Plus(total, DivRgb(origArray[x - 1, y], Eighth));
      total := Plus(total, DivRgb(origArray[x - 1, y + 1], Sixteenth));
      total := Plus(total, DivRgb(origArray[x - 1, y - 1], Sixteenth));
    }
  }

  /** The neighbour terms of a cell on an inner row. */
  method InnerRowShares(origArray: array2<Rgb>, x: int, y: int) returns (total: Rgb)
    requires Stencilable(origArray.Length0, origArray.Length1) && InRange(origArray, x, y)
    requires 0 < x < origArray.Length0 - 1
    ensures NeighbourTotal(total, Around(origArray, x, y))
  {
    var cols := origArray.Length1;
    total := Black;
    if y - 1 < 0 {                        // no y - 1
      total := Plus(total, DivRgb(origArray[x - 1, y], Eighth));
      total := Plus(total, DivRgb(origArray[x + 1, y], Eighth));
      total := Plus(total, DivRgb(origArray[x, y + 1], Eighth));
      total := Plus(total, DivRgb(origArray[x + 1, y + 1], Sixteenth));
      total := Plus(total, DivRgb(origArray[x - 1, y + 1], Sixteenth));
    } else if y + 2 > cols {              // no y + 1
      total := Plus(total, DivRgb(origArray[x - 1, y], Eighth));
      total := Plus(total, DivRgb(origArray[x + 1, y], Eighth));
      total := Plus(total, DivRgb(origArray[x, y - 1], Eighth));
      total := Plus(total, DivRgb(origArray[x + 1, y - 1], Sixteenth));
      total := Plus(total, DivRgb(origArray[x - 1, y - 1], Sixteenth));
    } else {
      total := Plus(total, DivRgb(origArray[x - 1, y], Eighth));
      total := Plus(total, DivRgb(origArray[x + 1, y], Eighth));
      total := Plus(total, DivRgb(origArray[x, y + 1], Eighth));
      total := Plus(total, DivRgb(origArray[x, y - 1], Eighth));
      total := Plus(total, DivRgb(origArray[x + 1, y + 1], Sixteenth));
      total := Plus(total, DivRgb(origArray[x - 1, y + 1], Sixteenth));
      total := Plus(total, DivRgb(origArray[x + 1, y - 1], Sixteenth));
      total := Plus(total, DivRgb(origArray[x - 1, y - 1], Sixteenth));
    }
  }

  /** The kernel loop of edgeDetector over a block: every cell gets its edge value. */
  method EdgeBlock(origArray: array2<Rgb>, edgeArray: array2<Rgb>, r: Rect)
    requires origArray != edgeArray
    requires InGrid(r, origArray) && InGrid(r, edgeArray)
    requires NonEmpty(r) ==> Stencilable(origArray.Length0, origArray.Length1)
    modifies edgeArray
    ensures forall i, j :: 0 <= i < edgeArray.Length0 && 0 <= j < edgeArray.Length1 ==>
      edgeArray[i, j] == if Contains(r, i, j) then EdgeAt(origArray, i, j) else old(edgeArray[i, j])
  {
    for x := r.startRow to r.endRow
      invariant forall a, b :: 0 <= a < edgeArray.Length0 && 0 <= b < edgeArray.Length1 ==>
        edgeArray[a, b] == if a < x && Contains(r, a, b) then EdgeAt(origArray, a, b) else old(edgeArray[a, b])
    {
      for y := r.startCol to r.endCol
        invariant forall a, b :: 0 <= a < edgeArray.Length0 && 0 <= b < edgeArray.Length1 ==>
          edgeArray[a, b] == if (a < x || (a == x && b < y)) && Contains(r, a, b) then EdgeAt(origArray, a, b)
                             else old(edgeArray[a, b])
      {
        var e := EdgePixel(origArray, x, y);
        edgeArray[x, y] := e;
      }
    }
  }

  /** The kernel loop of motionBlur over a block, the same in QuadTree.java and Filter.java. */
  method BlurBlock(origArray: array2<Rgb>, motionArray: array2<Rgb>, r: Rect)
    requires origArray != motionArray
    requires InGrid(r, origArray) && InGrid(r, motionArray)
    requires NonEmpty(r) ==> Stencilable(origArray.Length0, origArray.Length1)
    modifies motionArray
    ensures forall i, j :: 0 <= i < motionArray.Length0 && 0 <= j < motionArray.Length1 ==>
      motionArray[i, j] == if Contains(r, i, j) then BlurAt(origArray, i, j) else old(motionArray[i, j])
  {
    for x := r.startRow to r.endRow
      invariant forall a, b :: 0 <= a < motionArray.Length0 && 0 <= b < motionArray.Length1 ==>
        motionArray[a, b] == if a < x && Contains(r, a, b) then BlurAt(origArray, a, b) else old(motionArray[a, b])
    {
      BlurRow(origArray, motionArray, r, x);
    }
  }

  /** One pass of the outer loop of motionBlur: row x of the block. */
  method BlurRow(origArray: array2<Rgb>, motionArray: array2<Rgb>, r: Rect, x: int)
    requires origArray != motionArray
    requires InGrid(r, origArray) && InGrid(r, motionArray) && r.startRow <= x < r.endRow
    requires NonEmpty(r) ==> Stencilable(origArray.Length0, origArray.Length1)
    modifies motionArray
    ensures forall a, b :: 0 <= a < motionArray.Length0 && 0 <= b < motionArray.Length1 ==>
      motionArray[a, b] == if a == x && r.startCol <= b < r.endCol then BlurAt(origArray, a, b)
                           else old(motionArray[a, b])
  {
    for y := r.startCol to r.endCol
      invariant forall a, b :: 0 <= a < motionArray.Length0 && 0 <= b < motionArray.Length1 ==>
        motionArray[a, b] == if a == x && r.startCol <= b < y then BlurAt(origArray, a, b)
                             else old(motionArray[a, b])
    {
      var b := BlurPixel(origArray, x, y);
      motionArray[x, y] := b;
    }
  }
}
