/** The tree walks of QuadTree.java that write an output grid: quadCompression,
    quadCompressionOutlined and quadEdgeOutlined paint every node's block, parent
    before children; edgeDetector and motionBlur fill shallow leaves and run a 3x3
    kernel over every cell of the nodes at the depth gate. Each walk is a recursive
    method proved against a per-cell function that replays the walk on one cell
    (`Render`, `Filtered`); the lemmas then say which node decides the cell. */
module Rendering {
  import opened Colors
  import opened Regions
  import opened Stencil
  import opened Trees

  // ---------------------------------------------------------------------
  // Painting blocks.

  /** Fill paints a block with the node colour, Outline paints its first and last row and
      column red and the rest with the node colour, Border paints only that red frame. */
  datatype Style = Fill | Outline | Border

  predicate OnBorder(r: Rect, i: int, j: int) {
    i == r.startRow || i == r.endRow - 1 || j == r.startCol || j == r.endCol - 1
  }

  /** The value cell (i, j) holds after one node's loop, when it held c before. */
  function Paint(style: Style, r: Rect, color: Rgb, i: int, j: int, c: Rgb): Rgb {
    if !Contains(r, i, j) then c
    else if style != Fill && OnBorder(r, i, j) then OutlineRed
    else if style == Border then c
    else color
  }

  /** The value cell (i, j) holds after the walk over n, visiting NW, NE, SE, SW after
      the node itself. */
  function Render(style: Style, n: Node, i: int, j: int, c: Rgb): Rgb {
    var here := Paint(style, n.rect, n.color, i, j, c);
    match n
    case Leaf(_, _, _) => here
    case Split(_, _, _, nw, ne, sw, se) =>
      Render(style, sw, i, j, Render(style, se, i, j, Render(style, ne, i, j, Render(style, nw, i, j, here))))
  }

  /** The leaf of a well-formed tree whose block holds cell (i, j). */
  function Deepest(n: Node, i: int, j: int): (d: Node)
    requires WellFormedTree(n) && Contains(n.rect, i, j)
    ensures d.Leaf? && Contains(d.rect, i, j) && Inside(d.rect, n.rect)
  {
    match n
    case Leaf(_, _, _) => n
    case Split(_, _, r, nw, ne, sw, se) =>
      QuadrantsTile(r, i, j);
      if Contains(nw.rect, i, j) then Deepest(nw, i, j)
      else if Contains(ne.rect, i, j) then Deepest(ne, i, j)
      else if Contains(sw.rect, i, j) then Deepest(sw, i, j)
      else Deepest(se, i, j)
  }

  /** A walk never writes a cell outside the block of its root. */
  lemma {:induction false} RenderOutside(style: Style, n: Node, i: int, j: int, c: Rgb)
    requires WellFormedTree(n) && !Contains(n.rect, i, j)
    ensures Render(style, n, i, j, c) == c
  {
    if n.Split? {
      QuadrantsTile(n.rect, i, j);
      RenderOutside(style, n.nw, i, j, c);
      RenderOutside(style, n.ne, i, j, c);
      RenderOutside(style, n.se, i, j, c);
      RenderOutside(style, n.sw, i, j, c);
    }
  }

  /** quadCompression and quadCompressionOutlined leave in each cell of the tree's block
      what the leaf holding that cell paints there: children overwrite their parent. */
  lemma {:induction false} RenderDeepest(style: Style, n: Node, i: int, j: int, c: Rgb)
    requires style != Border
    requires WellFormedTree(n) && Contains(n.rect, i, j)
    ensures Render(style, n, i, j, c) == Paint(style, Deepest(n, i, j).rect, Deepest(n, i, j).color, i, j, c)
  {
    match n
    case Leaf(_, _, _) =>
    case Split(_, _, r, nw, ne, sw, se) =>
      QuadrantsTile(r, i, j);
      var here := Paint(style, n.rect, n.color, i, j, c);
      var v := Paint(style, Deepest(n, i, j).rect, Deepest(n, i, j).color, i, j, c);
      if Contains(nw.rect, i, j) {
        RenderDeepest(style, nw, i, j, here);
        RenderOutside(style, ne, i, j, v);
        RenderOutside(style, se, i, j, v);
        RenderOutside(style, sw, i, j, v);
      } else if Contains(ne.rect, i, j) {
        RenderOutside(style, nw, i, j, here);
        RenderDeepest(style, ne, i, j, here);
        RenderOutside(style, se, i, j, v);
        RenderOutside(style, sw, i, j, v);
      } else if Contains(sw.rect, i, j) {
        RenderOutside(style, nw, i, j, here);
        RenderOutside(style, ne, i, j, here);
        RenderOutside(style, se, i, j, here);
        RenderDeepest(style, sw, i, j, here);
      } else {
        RenderOutside(style, nw, i, j, here);
        RenderOutside(style, ne, i, j, here);
        RenderDeepest(style, se, i, j, here);
        RenderOutside(style, sw, i, j, v);
      }
  }

  /** The compressed picture shows, in each cell, the colour of the leaf that holds it. */
  lemma CompressedShowsLeafColour(n: Node, i: int, j: int, c: Rgb)
    requires WellFormedTree(n) && Contains(n.rect, i, j)
    ensures Render(Fill, n, i, j, c) == Deepest(n, i, j).color
  {
    RenderDeepest(Fill, n, i, j, c);
  }

  /** In a tree of averages, the leaf holding a cell holds the average of its own block. */
  lemma {:induction false} DeepestIsAveraged(n: Node, image: array2<Rgb>, i: int, j: int)
    requires WellFormedTree(n) && Contains(n.rect, i, j) && Averaged(n, image)
    ensures InGrid(Deepest(n, i, j).rect, image)
    ensures Deepest(n, i, j).color == Average(image, Deepest(n, i, j).rect)
  {
    match n
    case Leaf(_, _, _) =>
    case Split(_, _, r, nw, ne, sw, se) =>
      QuadrantsTile(r, i, j);
      if Contains(nw.rect, i, j) {
        DeepestIsAveraged(nw, image, i, j);
      } else if Contains(ne.rect, i, j) {
        DeepestIsAveraged(ne, image, i, j);
      } else if Contains(sw.rect, i, j) {
        DeepestIsAveraged(sw, image, i, j);
      } else {
        DeepestIsAveraged(se, image, i, j);
      }
  }

  /** Compressing with a tree of averages shows, in each cell, the average colour of the
      leaf block that holds it. */
  lemma CompressedIsLeafAverage(n: Node, image: array2<Rgb>, i: int, j: int, c: Rgb)
    requires WellFormedTree(n) && Contains(n.rect, i, j) && Averaged(n, image)
    ensures InGrid(Deepest(n, i, j).rect, image)
    ensures Render(Fill, n, i, j, c) == Average(image, Deepest(n, i, j).rect)
  {
    CompressedShowsLeafColour(n, i, j, c);
    DeepestIsAveraged(n, image, i, j);
  }

  /** The outlined picture frames the whole block of the tree in red. */
  lemma OutlineFramesRoot(n: Node, i: int, j: int, c: Rgb)
    requires WellFormedTree(n) && Contains(n.rect, i, j) && OnBorder(n.rect, i, j)
    ensures Render(Outline, n, i, j, c) == OutlineRed
  {
    RenderDeepest(Outline, n, i, j, c);
  }

  /** Cell (i, j) lies on the border of some node of the tree that holds it. */
  predicate OnSomeBorder(n: Node, i: int, j: int) {
    (Contains(n.rect, i, j) && OnBorder(n.rect, i, j)) ||
    match n
    case Leaf(_, _, _) => false
    case Split(_, _, _, nw, ne, sw, se) =>
      OnSomeBorder(nw, i, j) || OnSomeBorder(ne, i, j) || OnSomeBorder(sw, i, j) || OnSomeBorder(se, i, j)
  }

  /** quadEdgeOutlined turns a cell red exactly when it lies on the border of a node's
      block, and leaves every other cell as it was. */
  lemma {:induction false} BorderMarksNodeBorders(n: Node, i: int, j: int, c: Rgb)
    ensures Render(Border, n, i, j, c) == if OnSomeBorder(n, i, j) then OutlineRed else c
  {
    match n
    case Leaf(_, _, _) =>
    case Split(_, _, _, nw, ne, sw, se) =>
      var here := Paint(Border, n.rect, n.color, i, j, c);
      BorderMarksNodeBorders(nw, i, j, here);
      var a := Render(Border, nw, i, j, here);
      BorderMarksNodeBorders(ne, i, j, a);
      var b := Render(Border, ne, i, j, a);
      BorderMarksNodeBorders(se, i, j, b);
      var d := Render(Border, se, i, j, b);
      BorderMarksNodeBorders(sw, i, j, d);
  }

  /** The loop of quadCompression over one node's block. */
  method FillBlock(pic: array2<Rgb>, r: Rect, color: Rgb)
    requires Within(r, pic.Length0, pic.Length1)
    modifies pic
    ensures forall i, j :: 0 <= i < pic.Length0 && 0 <= j < pic.Length1 ==>
      pic[i, j] == Paint(Fill, r, color, i, j, old(pic[i, j]))
  {
    for i := r.startRow to r.endRow
      invariant forall a, b :: 0 <= a < pic.Length0 && 0 <= b < pic.Length1 ==>
        pic[a, b] == if a < i then Paint(Fill, r, color, a, b, old(pic[a, b])) else old(pic[a, b])
    {
      for j := r.startCol to r.endCol
        invariant forall a, b :: 0 <= a < pic.Length0 && 0 <= b < pic.Length1 ==>
          pic[a, b] == if a < i || (a == i && b < j) then Paint(Fill, r, color, a, b, old(pic[a, b])) else old(pic[a, b])
      {
        pic[i, j] := color;
      }
    }
  }

  /** The loop of quadCompressionOutlined over one node's block. */
  method OutlineBlock(pic: array2<Rgb>, r: Rect, color: Rgb)
    requires Within(r, pic.Length0, pic.Length1)
    modifies pic
    ensures forall i, j :: 0 <= i < pic.Length0 && 0 <= j < pic.Length1 ==>
      pic[i, j] == Paint(Outline, r, color, i, j, old(pic[i, j]))
  {
    for i := r.startRow to r.endRow
      invariant forall a, b :: 0 <= a < pic.Length0 && 0 <= b < pic.Length1 ==>
        pic[a, b] == if a < i then Paint(Outline, r, color, a, b, old(pic[a, b])) else old(pic[a, b])
    {
      for j := r.startCol to r.endCol
        invariant forall a, b :: 0 <= a < pic.Length0 && 0 <= b < pic.Length1 ==>
          pic[a, b] == if a < i || (a == i && b < j) then Paint(Outline, r, color, a, b, old(pic[a, b])) else old(pic[a, b])
      {
        if i == r.startRow || i == r.endRow - 1 {
          pic[i, j] := OutlineRed;
        } else if j == r.startCol || j == r.endCol - 1 {
          pic[i, j] := OutlineRed;
        } else {
          pic[i, j] := color;
        }
      }
    }
  }

  /** The loop of quadEdgeOutlined over one node's block: only the frame is written. */
  method BorderBlock(pic: array2<Rgb>, r: Rect)
    requires Within(r, pic.Length0, pic.Length1)
    modifies pic
    ensures forall i, j :: 0 <= i < pic.Length0 && 0 <= j < pic.Length1 ==>
      pic[i, j] == Paint(Border, r, Black, i, j, old(pic[i, j]))
  {
    for i := r.startRow to r.endRow
      invariant forall a, b :: 0 <= a < pic.Length0 && 0 <= b < pic.Length1 ==>
        pic[a, b] == if a < i then Paint(Border, r, Black, a, b, old(pic[a, b])) else old(pic[a, b])
    {
      for j := r.startCol to r.endCol
        invariant forall a, b :: 0 <= a < pic.Length0 && 0 <= b < pic.Length1 ==>
          pic[a, b] == if a < i || (a == i && b < j) then Paint(Border, r, Black, a, b, old(pic[a, b])) else old(pic[a, b])
      {
        if i == r.startRow || i == r.endRow - 1 {
          pic[i, j] := OutlineRed;
        } else if j == r.startCol || j == r.endCol - 1 {
          pic[i, j] := OutlineRed;
        }
      }
    }
  }

  /** QuadTree.quadCompression below n. */
  method CompressNode(n: Node, newPicture: array2<Rgb>)
    requires TreeWithin(n, newPicture.Length0, newPicture.Length1)
    modifies newPicture
    ensures forall i, j :: 0 <= i < newPicture.Length0 && 0 <= j < newPicture.Length1 ==>
      newPicture[i, j] == Render(Fill, n, i, j, old(newPicture[i, j]))
  {
    FillBlock(newPicture, n.rect, n.color);
    if n.Split? {
      CompressNode(n.nw, newPicture);
      CompressNode(n.ne, newPicture);
      CompressNode(n.se, newPicture);
      CompressNode(n.sw, newPicture);
    }
  }

  /** QuadTree.quadCompressionOutlined below n. */
  method OutlineNode(n: Node, newPicture: array2<Rgb>)
    requires TreeWithin(n, newPicture.Length0, newPicture.Length1)
    modifies newPicture
    ensures forall i, j :: 0 <= i < newPicture.Length0 && 0 <= j < newPicture.Length1 ==>
      newPicture[i, j] == Render(Outline, n, i, j, old(newPicture[i, j]))
  {
    OutlineBlock(newPicture, n.rect, n.color);
    if n.Split? {
      OutlineNode(n.nw, newPicture);
      OutlineNode(n.ne, newPicture);
      OutlineNode(n.se, newPicture);
      OutlineNode(n.sw, newPicture);
    }
  }

  /** QuadTree.quadEdgeOutlined below n. */
  method EdgeOutlineNode(n: Node, edgePicture: array2<Rgb>)
    requires TreeWithin(n, edgePicture.Length0, edgePicture.Length1)
    modifies edgePicture
    ensures forall i, j :: 0 <= i < edgePicture.Length0 && 0 <= j < edgePicture.Length1 ==>
      edgePicture[i, j] == Render(Border, n, i, j, old(edgePicture[i, j]))
  {
    BorderBlock(edgePicture, n.rect);
    if n.Split? {
      EdgeOutlineNode(n.nw, edgePicture);
      EdgeOutlineNode(n.ne, edgePicture);
      EdgeOutlineNode(n.se, edgePicture);
      EdgeOutlineNode(n.sw, edgePicture);
    }
  }

  // ---------------------------------------------------------------------
  // The depth-gated kernels.

  datatype Kernel = Edge | Blur

  /** Nodes shallower than the gate are only walked through; edgeDetector gates at
      depth 4, motionBlur at depth 3. */
  function Gate(k: Kernel): nat {
    match k
    case Edge => 4
    case Blur => 3
  }

  /** What a leaf above the gate writes over its block: black for edgeDetector, the
      block's average for motionBlur. */
  function Shallow(k: Kernel, orig: array2<Rgb>, r: Rect): Rgb
    reads orig
    requires InGrid(r, orig)
  {
    match k
    case Edge => Black
    case Blur => Average(orig, r)
  }

  /** What a node at or below the gate writes at each of its cells. */
  function Deep(k: Kernel, orig: array2<Rgb>, i: int, j: int): Rgb
    reads orig
    requires InRange(orig, i, j)
  {
    match k
    case Edge => EdgeAt(orig, i, j)
    case Blur => BlurAt(orig, i, j)
  }

  /** The value cell (i, j) of the output holds after the walk over n, visiting NW, NE,
      SW, SE below the gate. */
  function Filtered(k: Kernel, n: Node, orig: array2<Rgb>, i: int, j: int, c: Rgb): Rgb
    reads orig
    requires TreeWithin(n, orig.Length0, orig.Length1)
  {
    if n.depth < Gate(k) then
      match n
      case Leaf(_, _, r) => if Contains(r, i, j) then Shallow(k, orig, r) else c
      case Split(_, _, _, nw, ne, sw, se) =>
        Filtered(k, se, orig, i, j, Filtered(k, sw, orig, i, j,
          Filtered(k, ne, orig, i, j, Filtered(k, nw, orig, i, j, c))))
    else if Contains(n.rect, i, j) then Deep(k, orig, i, j)
    else c
  }

  /** The node on the way down to cell (i, j) where the walk stops: a leaf above the
      gate, or the first node at the gate. */
  function GateNode(gate: nat, n: Node, i: int, j: int): (g: Node)
    requires WellFormedTree(n) && Contains(n.rect, i, j)
    ensures Contains(g.rect, i, j) && Inside(g.rect, n.rect) && (g.Leaf? || g.depth >= gate)
  {
    if n.depth >= gate then n
    else match n
      case Leaf(_, _, _) => n
      case Split(_, _, r, nw, ne, sw, se) =>
        QuadrantsTile(r, i, j);
        if Contains(nw.rect, i, j) then GateNode(gate, nw, i, j)
        else if Contains(ne.rect, i, j) then GateNode(gate, ne, i, j)
        else if Contains(sw.rect, i, j) then GateNode(gate, sw, i, j)
        else GateNode(gate, se, i, j)
  }

  /** The kernel walks never write a cell outside the block of their root. */
  lemma {:induction false} FilteredOutside(k: Kernel, n: Node, orig: array2<Rgb>, i: int, j: int, c: Rgb)
    requires WellFormedTree(n) && TreeWithin(n, orig.Length0, orig.Length1) && !Contains(n.rect, i, j)
    ensures Filtered(k, n, orig, i, j, c) == c
  {
    if n.depth < Gate(k) && n.Split? {
      QuadrantsTile(n.rect, i, j);
      FilteredOutside(k, n.nw, orig, i, j, c);
      FilteredOutside(k, n.ne, orig, i, j, c);
      FilteredOutside(k, n.sw, orig, i, j, c);
      FilteredOutside(k, n.se, orig, i, j, c);
    }
  }

  /** Each cell of the tree's block ends up with what its gate node writes: the leaf's
      fill when the walk stops above the gate, the kernel at that cell otherwise. */
  lemma {:induction false} FilteredByGate(k: Kernel, n: Node, orig: array2<Rgb>, i: int, j: int, c: Rgb)
    requires WellFormedTree(n) && TreeWithin(n, orig.Length0, orig.Length1) && Contains(n.rect, i, j)
    ensures var g := GateNode(Gate(k), n, i, j);
      Filtered(k, n, orig, i, j, c)
      == if g.depth < Gate(k) then Shallow(k, orig, g.rect) else Deep(k, orig, i, j)
  {
    if n.depth < Gate(k) && n.Split? {
      var r := n.rect;
      QuadrantsTile(r, i, j);
      var v := Filtered(k, n, orig, i, j, c);
      if Contains(n.nw.rect, i, j) {
        FilteredByGate(k, n.nw, orig, i, j, c);
        var a := Filtered(k, n.nw, orig, i, j, c);
        FilteredOutside(k, n.ne, orig, i, j, a);
        FilteredOutside(k, n.sw, orig, i, j, a);
        FilteredOutside(k, n.se, orig, i, j, a);
      } else if Contains(n.ne.rect, i, j) {
        FilteredOutside(k, n.nw, orig, i, j, c);
        FilteredByGate(k, n.ne, orig, i, j, c);
        var a := Filtered(k, n.ne, orig, i, j, c);
        FilteredOutside(k, n.sw, orig, i, j, a);
        FilteredOutside(k, n.se, orig, i, j, a);
      } else if Contains(n.sw.rect, i, j) {
        FilteredOutside(k, n.nw, orig, i, j, c);
        FilteredOutside(k, n.ne, orig, i, j, c);
        FilteredByGate(k, n.sw, orig, i, j, c);
        var a := Filtered(k, n.sw, orig, i, j, c);
        FilteredOutside(k, n.se, orig, i, j, a);
      } else {
        FilteredOutside(k, n.nw, orig, i, j, c);
        FilteredOutside(k, n.ne, orig, i, j, c);
        FilteredOutside(k, n.sw, orig, i, j, c);
        FilteredByGate(k, n.se, orig, i, j, c);
      }
    }
  }

  /** motionBlur keeps every channel of the tree's block within the range of the
      original picture: averages stay between their extremes and the blur weights add
      up to one. */
  lemma {:induction false} BlurStaysInRange(n: Node, orig: array2<Rgb>, i: int, j: int, c: Rgb, ch: Channel, m: int)
    requires WellFormedTree(n) && TreeWithin(n, orig.Length0, orig.Length1) && Contains(n.rect, i, j)
    requires forall a, b :: 0 <= a < orig.Length0 && 0 <= b < orig.Length1 ==> 0 <= Chan(orig[a, b], ch) <= m
    ensures 0 <= Chan(Filtered(Blur, n, orig, i, j, c), ch) <= m
  {
    FilteredByGate(Blur, n, orig, i, j, c);
    var g := GateNode(Gate(Blur), n, i, j);
    if g.depth < Gate(Blur) {
      ShallowBlurInRange(orig, g.rect, i, j, ch, m);
    } else {
      DeepBlurInRange(orig, i, j, ch, m);
    }
  }

  /** A block that holds a cell averages within the picture's range. */
  lemma ShallowBlurInRange(orig: array2<Rgb>, r: Rect, i: int, j: int, ch: Channel, m: int)
    requires InGrid(r, orig) && Contains(r, i, j)
    requires forall a, b :: 0 <= a < orig.Length0 && 0 <= b < orig.Length1 ==> 0 <= Chan(orig[a, b], ch) <= m
    ensures 0 <= Chan(Shallow(Blur, orig, r), ch) <= m
  {
    assert Area(r) > 0 by {
      MulNonneg(r.endCol - r.startCol, r.endRow - r.startRow);
    }
    AverageBounds(orig, r, ch, 0, m);
  }

  /** The blur kernel at a cell of the picture stays within the picture's range. */
  lemma DeepBlurInRange(orig: array2<Rgb>, i: int, j: int, ch: Channel, m: int)
    requires InRange(orig, i, j)
    requires forall a, b :: 0 <= a < orig.Length0 && 0 <= b < orig.Length1 ==> 0 <= Chan(orig[a, b], ch) <= m
    ensures 0 <= Chan(Deep(Blur, orig, i, j), ch) <= m
  {
    var w := Window(orig, i, j);
    forall a, b | Contains(w, a, b)
      ensures 0 <= Chan(orig[a, b], ch) <= m
    {
      assert 0 <= a < orig.Length0 && 0 <= b < orig.Length1;
    }
    BlurBounds(orig, i, j, ch, m);
    assert Deep(Blur, orig, i, j) == BlurAt(orig, i, j);
  }

  /** edgeDetector writes black wherever the original picture is uniform around a cell
      that the walk reaches at the gate, and over every shallow leaf. */
  lemma EdgeOfUniformIsBlack(n: Node, orig: array2<Rgb>, i: int, j: int, c: Rgb)
    requires WellFormedTree(n) && TreeWithin(n, orig.Length0, orig.Length1) && Contains(n.rect, i, j)
    requires Stencilable(orig.Length0, orig.Length1)
    requires forall a, b :: Contains(Window(orig, i, j), a, b) ==> orig[a, b] == orig[i, j]
    ensures Filtered(Edge, n, orig, i, j, c) == Black
  {
    FilteredByGate(Edge, n, orig, i, j, c);
    if GateNode(Gate(Edge), n, i, j).depth >= Gate(Edge) {
      UniformEdgeIsBlack(orig, i, j);
    }
  }

  /** Some node at or below the gate covers a cell, so the kernel runs. */
  predicate ReachesKernel(k: Kernel, n: Node) {
    if n.depth >= Gate(k) then NonEmpty(n.rect)
    else match n
      case Leaf(_, _, _) => false
      case Split(_, _, _, nw, ne, sw, se) =>
        ReachesKernel(k, nw) || ReachesKernel(k, ne) || ReachesKernel(k, sw) || ReachesKernel(k, se)
  }

  /** QuadTree.edgeDetector below n. */
  method EdgeNode(n: Node, origArray: array2<Rgb>, edgeArray: array2<Rgb>)
    requires origArray != edgeArray
    requires TreeWithin(n, origArray.Length0, origArray.Length1)
    requires TreeWithin(n, edgeArray.Length0, edgeArray.Length1)
    requires ReachesKernel(Edge, n) ==> Stencilable(origArray.Length0, origArray.Length1)
    modifies edgeArray
    ensures forall i, j :: 0 <= i < edgeArray.Length0 && 0 <= j < edgeArray.Length1 ==>
      edgeArray[i, j] == Filtered(Edge, n, origArray, i, j, old(edgeArray[i, j]))
  {
    if n.depth < 4 && n.Leaf? {
      FillBlock(edgeArray, n.rect, Black);
    } else if n.depth < 4 {
      EdgeNode(n.nw, origArray, edgeArray);
      EdgeNode(n.ne, origArray, edgeArray);
      EdgeNode(n.sw, origArray, edgeArray);
      EdgeNode(n.se, origArray, edgeArray);
    } else {
      EdgeBlock(origArray, edgeArray, n.rect);
    }
  }

  /** QuadTree.motionBlur below n. */
  method BlurNode(n: Node, origArray: array2<Rgb>, motionArray: array2<Rgb>)
    requires origArray != motionArray
    requires TreeWithin(n, origArray.Length0, origArray.Length1)
    requires TreeWithin(n, motionArray.Length0, motionArray.Length1)
    requires ReachesKernel(Blur, n) ==> Stencilable(origArray.Length0, origArray.Length1)
    modifies motionArray
    ensures forall i, j :: 0 <= i < motionArray.Length0 && 0 <= j < motionArray.Length1 ==>
      motionArray[i, j] == Filtered(Blur, n, origArray, i, j, old(motionArray[i, j]))
  {
    if n.depth < 3 && n.Leaf? {
      var r := n.rect;
      var ave := AverageColor(origArray, r.startRow, r.startCol, r.endRow, r.endCol);
      FillBlock(motionArray, r, ave);
    } else if n.depth < 3 {
      BlurNode(n.nw, origArray, motionArray);
      BlurNode(n.ne, origArray, motionArray);
      BlurNode(n.sw, origArray, motionArray);
      BlurNode(n.se, origArray, motionArray);
    } else {
      BlurBlock(origArray, motionArray, n.rect);
    }
  }
}
