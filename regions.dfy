/** Rectangles of a pixel grid and the statistics QuadTree.java computes over them:
    the truncated average colour (findAverageColor) and the summed squared colour
    distance that divideRegulated uses as its error signal. A grid is an `array2`
    indexed `[row, col]`; its rows are `Length0`, its columns `Length1`. */
module Regions {
  import opened Colors

  /** A half-open block of cells: rows [startRow, endRow), columns [startCol, endCol). */
  datatype Rect = Rect(startRow: int, startCol: int, endRow: int, endCol: int)

  predicate WellFormed(r: Rect) {
    r.startRow <= r.endRow && r.startCol <= r.endCol
  }

  /** Area as the source computes it, `(endCol - startCol) * (endRow - startRow)`. */
  function Area(r: Rect): int {
    (r.endCol - r.startCol) * (r.endRow - r.startRow)
  }

  /** The block holds at least one cell. */
  predicate NonEmpty(r: Rect) {
    r.startRow < r.endRow && r.startCol < r.endCol
  }

  predicate Contains(r: Rect, i: int, j: int) {
    r.startRow <= i < r.endRow && r.startCol <= j < r.endCol
  }

  predicate Within(r: Rect, rows: int, cols: int) {
    0 <= r.startRow <= r.endRow <= rows && 0 <= r.startCol <= r.endCol <= cols
  }

  predicate InGrid(r: Rect, g: array2<Rgb>) {
    Within(r, g.Length0, g.Length1)
  }

  /** The whole grid, as the QuadTree constructor spans it. */
  function Whole(g: array2<Rgb>): Rect {
    Rect(0, 0, g.Length0, g.Length1)
  }

  /** Sum of cells [c0, c1) of row i. */
  function RowSum(g: array2<Rgb>, i: int, c0: int, c1: int): Rgb
    reads g
    requires 0 <= i < g.Length0 && 0 <= c0 <= c1 <= g.Length1
    decreases c1 - c0
  {
    if c0 == c1 then Black else Plus(RowSum(g, i, c0, c1 - 1), g[i, c1 - 1])
  }

  /** Sum of the cells of rows [r0, r1) and columns [c0, c1). */
  function Sum(g: array2<Rgb>, r0: int, r1: int, c0: int, c1: int): Rgb
    reads g
    requires 0 <= r0 <= r1 <= g.Length0 && 0 <= c0 <= c1 <= g.Length1
    decreases r1 - r0
  {
    if r0 == r1 then Black else Plus(Sum(g, r0, r1 - 1, c0, c1), RowSum(g, r1 - 1, c0, c1))
  }

  function RegionSum(g: array2<Rgb>, r: Rect): Rgb
    reads g
    requires InGrid(r, g)
  {
    Sum(g, r.startRow, r.endRow, r.startCol, r.endCol)
  }

  /** findAverageColor: per channel, the region's sum divided by its area and truncated
      toward zero, as the `(int)` cast of a double does. An empty region divides 0.0 by 0,
      and `(int)NaN` is 0, so it yields black. */
  function Average(g: array2<Rgb>, r: Rect): Rgb
    reads g
    requires InGrid(r, g)
  {
    var area := (r.endRow - r.startRow) * (r.endCol - r.startCol);
    if area == 0 then Black else DivRgb(RegionSum(g, r), area)
  }

  /** Every cell of the region has channel `ch` in [lo, hi]. */
  ghost predicate ChannelBounded(g: array2<Rgb>, r: Rect, ch: Channel, lo: int, hi: int)
    reads g
    requires InGrid(r, g)
  {
    forall i, j :: Contains(r, i, j) ==> lo <= Chan(g[i, j], ch) <= hi
  }

  lemma ChanPlus(a: Rgb, b: Rgb, ch: Channel)
    ensures Chan(Plus(a, b), ch) == Chan(a, ch) + Chan(b, ch)
  {
  }

  lemma MulLe(a: int, b: int, n: int)
    requires a <= b && n >= 0
    ensures a * n <= b * n
  {
  }

  lemma MulAdd(a: int, b: int, n: int)
    ensures (a + b) * n == a * n + b * n
    ensures n * (a + b) == n * a + n * b
  {
  }

  lemma {:induction false} RowSumBounds(g: array2<Rgb>, i: int, c0: int, c1: int, ch: Channel, lo: int, hi: int)
    requires 0 <= i < g.Length0 && 0 <= c0 <= c1 <= g.Length1
    requires forall j :: c0 <= j < c1 ==> lo <= Chan(g[i, j], ch) <= hi
    ensures lo * (c1 - c0) <= Chan(RowSum(g, i, c0, c1), ch) <= hi * (c1 - c0)
    decreases c1 - c0
  {
    if c0 < c1 {
      RowSumBounds(g, i, c0, c1 - 1, ch, lo, hi);
      ChanPlus(RowSum(g, i, c0, c1 - 1), g[i, c1 - 1], ch);
      MulAdd(lo, 0, 0);
      MulAdd(c1 - 1 - c0, 1, lo);
      MulAdd(c1 - 1 - c0, 1, hi);
    }
  }

  lemma {:induction false} SumBounds(g: array2<Rgb>, r0: int, r1: int, c0: int, c1: int, ch: Channel, lo: int, hi: int)
    requires 0 <= r0 <= r1 <= g.Length0 && 0 <= c0 <= c1 <= g.Length1
    requires forall i, j :: r0 <= i < r1 && c0 <= j < c1 ==> lo <= Chan(g[i, j], ch) <= hi
    ensures lo * ((r1 - r0) * (c1 - c0)) <= Chan(Sum(g, r0, r1, c0, c1), ch) <= hi * ((r1 - r0) * (c1 - c0))
    decreases r1 - r0
  {
    if r0 < r1 {
      SumBounds(g, r0, r1 - 1, c0, c1, ch, lo, hi);
      RowSumBounds(g, r1 - 1, c0, c1, ch, lo, hi);
      ChanPlus(Sum(g, r0, r1 - 1, c0, c1), RowSum(g, r1 - 1, c0, c1), ch);
      var w := c1 - c0;
      var a := (r1 - 1 - r0) * w;
      MulAdd(r1 - 1 - r0, 1, w);
      assert (r1 - r0) * w == a + w;
      MulAdd(a, w, lo);
      MulAdd(a, w, hi);
    }
  }

  lemma MulCancelLe(a: int, b: int, n: int)
    requires n > 0 && a * n <= b * n
    ensures a <= b
  {
    if a > b {
      MulLe(b + 1, a, n);
    }
  }

  lemma MulCancelLt(a: int, b: int, n: int)
    requires n > 0 && a * n < b * n
    ensures a < b
  {
    if a >= b {
      MulLe(b, a, n);
    }
  }

  /** A truncated quotient of a value between lo*n and hi*n lies between lo and hi. */
  lemma TruncBetween(s: int, n: int, lo: int, hi: int)
    requires n > 0 && lo * n <= s <= hi * n
    ensures lo <= Trunc(s, n) <= hi
  {
    var q := Trunc(s, n);
    TruncBounds(s, n);
    if s >= 0 {
      assert q * n <= s < (q + 1) * n;
      MulCancelLe(q, hi, n);
      MulCancelLt(lo, q + 1, n);
    } else {
      assert (-q) * n <= -s < (-q + 1) * n;
      MulAdd(-q, 1, n);
      assert (-q) * n == -(q * n);
      MulAdd(q, -1, n);
      MulCancelLe(lo, q, n);
      MulCancelLt(q - 1, hi, n);
    }
  }

  lemma ChanDiv(c: Rgb, d: int, ch: Channel)
    requires d > 0
    ensures Chan(DivRgb(c, d), ch) == Trunc(Chan(c, ch), d)
  {
  }

  /** The average of a non-empty region lies between the smallest and the largest
      value its cells take in each channel. */
  lemma AverageBounds(g: array2<Rgb>, r: Rect, ch: Channel, lo: int, hi: int)
    requires InGrid(r, g) && Area(r) > 0
    requires ChannelBounded(g, r, ch, lo, hi)
    ensures lo <= Chan(Average(g, r), ch) <= hi
  {
    var n := (r.endRow - r.startRow) * (r.endCol - r.startCol);
    assert n == Area(r);
    SumBounds(g, r.startRow, r.endRow, r.startCol, r.endCol, ch, lo, hi);
    var s := RegionSum(g, r);
    assert Average(g, r) == DivRgb(s, n);
    ChanDiv(s, n, ch);
    TruncBetween(Chan(s, ch), n, lo, hi);
  }

  /** A region whose cells all hold c (in every channel) averages to c. */
  lemma AverageOfUniform(g: array2<Rgb>, r: Rect, c: Rgb)
    requires InGrid(r, g) && Area(r) > 0
    requires forall i, j :: Contains(r, i, j) ==> g[i, j] == c
    ensures Average(g, r) == c
  {
    AverageBounds(g, r, Red, c.red, c.red);
    AverageBounds(g, r, Green, c.green, c.green);
    AverageBounds(g, r, Blue, c.blue, c.blue);
  }

  /** findAverageColor: two nested loops add up the channels, then divide. */
  method AverageColor(image: array2<Rgb>, startRow: int, startCol: int, endRow: int, endCol: int)
    returns (c: Rgb)
    requires InGrid(Rect(startRow, startCol, endRow, endCol), image)
    ensures c == Average(image, Rect(startRow, startCol, endRow, endCol))
  {
    var redTotal, greenTotal, blueTotal := 0, 0, 0;
    for i := startRow to endRow
      invariant Rgb(redTotal, greenTotal, blueTotal) == Sum(image, startRow, i, startCol, endCol)
    {
      redTotal, greenTotal, blueTotal := AddRow(image, i, startCol, endCol, redTotal, greenTotal, blueTotal);
    }
    var area := (endRow - startRow) * (endCol - startCol);
    MulLe(0, endRow - startRow, endCol - startCol);
    if area == 0 {
      // 0.0 / 0 is NaN, and (int)NaN is 0
      c := Rgb(0, 0, 0);
    } else {
      c := Rgb(Trunc(redTotal, area), Trunc(greenTotal, area), Trunc(blueTotal, area));
    }
  }

  /** The inner loop of findAverageColor: adds row i's cells in [startCol, endCol) to
      the running totals. */
  method AddRow(image: array2<Rgb>, i: int, startCol: int, endCol: int, red: int, green: int, blue: int)
    returns (redTotal: int, greenTotal: int, blueTotal: int)
    requires 0 <= i < image.Length0 && 0 <= startCol <= endCol <= image.Length1
    ensures Rgb(redTotal, greenTotal, blueTotal) == Plus(Rgb(red, green, blue), RowSum(image, i, startCol, endCol))
  {
    redTotal, greenTotal, blueTotal := red, green, blue;
    for j := startCol to endCol
      invariant Rgb(redTotal, greenTotal, blueTotal) == Plus(Rgb(red, green, blue), RowSum(image, i, startCol, j))
    {
      var p := image[i, j];
      redTotal := redTotal + p.red;
      greenTotal := greenTotal + p.green;
      blueTotal := blueTotal + p.blue;
    }
  }

  // ---------------------------------------------------------------------
  // Squared colour distance (the numerator of divideRegulated's error).

  function Sq(n: int): nat {
    n * n
  }

  /** Squared distance of one cell from the reference colour. */
  function CellDistance(p: Rgb, avg: Rgb): nat {
    Sq(p.red - avg.red) + Sq(p.green - avg.green) + Sq(p.blue - avg.blue)
  }

  function RowDistance(g: array2<Rgb>, i: int, c0: int, c1: int, avg: Rgb): nat
    reads g
    requires 0 <= i < g.Length0 && 0 <= c0 <= c1 <= g.Length1
    decreases c1 - c0
  {
    if c0 == c1 then 0 else RowDistance(g, i, c0, c1 - 1, avg) + CellDistance(g[i, c1 - 1], avg)
  }

  function Distance(g: array2<Rgb>, r0: int, r1: int, c0: int, c1: int, avg: Rgb): nat
    reads g
    requires 0 <= r0 <= r1 <= g.Length0 && 0 <= c0 <= c1 <= g.Length1
    decreases r1 - r0
  {
    if r0 == r1 then 0 else Distance(g, r0, r1 - 1, c0, c1, avg) + RowDistance(g, r1 - 1, c0, c1, avg)
  }

  /** The summed squared channel difference between the region's cells and `avg`. */
  function SqDistance(g: array2<Rgb>, r: Rect, avg: Rgb): nat
    reads g
    requires InGrid(r, g)
  {
    Distance(g, r.startRow, r.endRow, r.startCol, r.endCol, avg)
  }

  lemma {:induction false} RowDistanceZero(g: array2<Rgb>, i: int, c0: int, c1: int, avg: Rgb)
    requires 0 <= i < g.Length0 && 0 <= c0 <= c1 <= g.Length1
    ensures RowDistance(g, i, c0, c1, avg) == 0 <==> forall j :: c0 <= j < c1 ==> g[i, j] == avg
    decreases c1 - c0
  {
    if c0 < c1 {
      RowDistanceZero(g, i, c0, c1 - 1, avg);
      var p := g[i, c1 - 1];
      assert CellDistance(p, avg) == 0 <==> p == avg by {
        if CellDistance(p, avg) == 0 {
          assert Sq(p.red - avg.red) == 0 && Sq(p.green - avg.green) == 0 && Sq(p.blue - avg.blue) == 0;
        }
      }
    }
  }

  lemma {:induction false} DistanceZero(g: array2<Rgb>, r0: int, r1: int, c0: int, c1: int, avg: Rgb)
    requires 0 <= r0 <= r1 <= g.Length0 && 0 <= c0 <= c1 <= g.Length1
    ensures Distance(g, r0, r1, c0, c1, avg) == 0
        <==> forall i, j :: r0 <= i < r1 && c0 <= j < c1 ==> g[i, j] == avg
    decreases r1 - r0
  {
    if r0 < r1 {
      DistanceZero(g, r0, r1 - 1, c0, c1, avg);
      RowDistanceZero(g, r1 - 1, c0, c1, avg);
    }
  }

  /** The squared distance vanishes exactly when every cell of the region equals `avg`. */
  lemma SqDistanceZero(g: array2<Rgb>, r: Rect, avg: Rgb)
    requires InGrid(r, g)
    ensures SqDistance(g, r, avg) == 0 <==> forall i, j :: Contains(r, i, j) ==> g[i, j] == avg
  {
    DistanceZero(g, r.startRow, r.endRow, r.startCol, r.endCol, avg);
  }

  /** The colorDistance loop of divideRegulated. */
  method ColorDistance(image: array2<Rgb>, r: Rect, average: Rgb) returns (d: int)
    requires InGrid(r, image)
    ensures d == SqDistance(image, r, average)
  {
    d := 0;
    for i := r.startRow to r.endRow
      invariant d == Distance(image, r.startRow, i, r.startCol, r.endCol, average)
    {
      for j := r.startCol to r.endCol
        invariant d == Distance(image, r.startRow, i, r.startCol, r.endCol, average)
                     + RowDistance(image, i, r.startCol, j, average)
      {
        var p := image[i, j];
        d := d + (Sq(p.red - average.red) + Sq(p.green - average.green) + Sq(p.blue - average.blue));
      }
    }
  }
}
