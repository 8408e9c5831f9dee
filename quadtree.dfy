/** QuadTree.java's class: a root node and a `size` counter. The constructor makes a
    single node over the whole image; divide and divideRegulated grow the tree below
    a node, adding four to `size` per split; the remaining methods hand the root to the
    walks of module Rendering. */
module QuadTrees {
  import opened Colors
  import opened Regions
  import opened Stencil
  import opened Trees
  import opened Rendering

  class QuadTree {
    var root: Node
    var size: int

    /** The root is the only node of a fresh tree, and after a single divide or
        divideRegulated `size` counts the nodes. */
    predicate Valid()
      reads this
    {
      WellFormedTree(root) && root.depth == 0 && size == Count(root)
    }

    /** A single node over rows [0, image.length) and columns [0, image[0].length),
        holding the average colour of the whole image. */
    constructor (image: array2<Rgb>)
      requires image.Length0 >= 1
      ensures root == Leaf(Average(image, Whole(image)), 0, Whole(image)) && size == 1
      ensures Valid() && Averaged(root, image)
    {
      var c := AverageColor(image, 0, 0, image.Length0, image.Length1);
      root := Leaf(c, 0, Whole(image));
      size := 1;
    }

    /** The private recursive divide: returns the node with its new subtree. */
    method DivideNode(n: Node, image: array2<Rgb>) returns (m: Node)
      requires InGrid(n.rect, image)
      modifies this`size
      ensures m == Divided(n, image)
      ensures Area(n.rect) < 2 ==> size == old(size)
      ensures Area(n.rect) >= 2 ==> size == old(size) + 4 * Splits(m)
      decreases Area(n.rect), 1
    {
      var r := n.rect;
      if (r.endCol - r.startCol) * (r.endRow - r.startRow) < 2 {
        return n;
      }
      QuadrantsShrink(r);
      var midRow := (r.endRow - r.startRow) / 2 + r.startRow;
      var midCol := (r.endCol - r.startCol) / 2 + r.startCol;
      assert Rect(r.startRow, r.startCol, midRow, midCol) == NW(r) && Rect(r.startRow, midCol, midRow, r.endCol) == NE(r);
      assert Rect(midRow, r.startCol, r.endRow, midCol) == SW(r) && Rect(midRow, midCol, r.endRow, r.endCol) == SE(r);
      var nw := DivideChild(image, Rect(r.startRow, r.startCol, midRow, midCol), n.depth);
      var ne := DivideChild(image, Rect(r.startRow, midCol, midRow, r.endCol), n.depth);
      var sw := DivideChild(image, Rect(midRow, r.startCol, r.endRow, midCol), n.depth);
      var se := DivideChild(image, Rect(midRow, midCol, r.endRow, r.endCol), n.depth);
      size := size + 4;
      m := Split(n.color, n.depth, r, nw, ne, sw, se);
    }

    /** One quadrant of a divide step: a new node holding the quadrant's average one
        level down, then divided in turn. */
    method DivideChild(image: array2<Rgb>, q: Rect, depth: nat) returns (child: Node)
      requires InGrid(q, image)
      modifies this`size
      ensures child == Divided(Child(image, q, depth), image)
      ensures size == old(size) + 4 * Splits(child)
      decreases Area(q), 2
    {
      var color := AverageColor(image, q.startRow, q.startCol, q.endRow, q.endCol);
      child := DivideNode(Leaf(color, depth + 1, q), image);
    }

    /** The public divide, from the root. */
    method Divide(image: array2<Rgb>)
      requires InGrid(root.rect, image)
      modifies this
      ensures root == Divided(old(root), image)
      ensures Area(old(root).rect) < 2 ==> size == old(size)
      ensures Area(old(root).rect) >= 2 ==> size == old(size) + 4 * Splits(root)
      ensures old(root).Leaf? && old(Valid()) ==> Valid() && SmallLeaves(root)
    {
      ghost var r0 := root;
      if r0.Leaf? {
        DividedShape(r0, image);
        CountBySplits(Divided(r0, image));
      }
      root := DivideNode(root, image);
    }

    /** The private recursive divideRegulated: the area test, the error of the block
        against its average, then the leaf budget and the tolerance, and only then the
        four children. */
    method RegulatedNode(n: Node, image: array2<Rgb>, maxLeaves: int, maxAcceptableError: real)
      returns (m: Node)
      requires InGrid(n.rect, image)
      modifies this`size
      ensures m == Regulated(n, image, maxLeaves, maxAcceptableError)
      ensures Stops(n, image, maxLeaves, maxAcceptableError) ==> size == old(size)
      ensures !Stops(n, image, maxLeaves, maxAcceptableError) ==> size == old(size) + 4 * Splits(m)
      decreases Area(n.rect), 1
    {
      var r := n.rect;
      if (r.endCol - r.startCol) * (r.endRow - r.startRow) < 2 {
        return n;
      }
      var average := AverageColor(image, r.startRow, r.startCol, r.endRow, r.endCol);
      var colorDistance := ColorDistance(image, r, average);
      if Pow4(n.depth) > maxLeaves {
        return n;
      }
      if ErrorBelow(colorDistance, r, maxAcceptableError) {
        return n;
      }
      QuadrantsShrink(r);
      var midRow := (r.endRow - r.startRow) / 2 + r.startRow;
      var midCol := (r.endCol - r.startCol) / 2 + r.startCol;
      assert Rect(r.startRow, r.startCol, midRow, midCol) == NW(r) && Rect(r.startRow, midCol, midRow, r.endCol) == NE(r);
      assert Rect(midRow, r.startCol, r.endRow, midCol) == SW(r) && Rect(midRow, midCol, r.endRow, r.endCol) == SE(r);
      var nw := RegulatedChild(image, Rect(r.startRow, r.startCol, midRow, midCol), n.depth, maxLeaves, maxAcceptableError);
      var ne := RegulatedChild(image, Rect(r.startRow, midCol, midRow, r.endCol), n.depth, maxLeaves, maxAcceptableError);
      var sw := RegulatedChild(image, Rect(midRow, r.startCol, r.endRow, midCol), n.depth, maxLeaves, maxAcceptableError);
      var se := RegulatedChild(image, Rect(midRow, midCol, r.endRow, r.endCol), n.depth, maxLeaves, maxAcceptableError);
      size := size + 4;
      m := Split(n.color, n.depth, r, nw, ne, sw, se);
    }

    /** One quadrant of a divideRegulated step. */
    method RegulatedChild(image: array2<Rgb>, q: Rect, depth: nat, maxLeaves: int, maxAcceptableError: real)
      returns (child: Node)
      requires InGrid(q, image)
      modifies this`size
      ensures child == Regulated(Child(image, q, depth), image, maxLeaves, maxAcceptableError)
      ensures size == old(size) + 4 * Splits(child)
      decreases Area(q), 2
    {
      var color := AverageColor(image, q.startRow, q.startCol, q.endRow, q.endCol);
      child := RegulatedNode(Leaf(color, depth + 1, q), image, maxLeaves, maxAcceptableError);
    }

    /** The public divideRegulated, from the root; `maxLeaves` stands for
        `(int)(compressionLevel * image.length * image[0].length)`. */
    method DivideRegulated(image: array2<Rgb>, maxLeaves: int, maxAcceptableError: real)
      requires InGrid(root.rect, image)
      modifies this
      ensures root == Regulated(old(root), image, maxLeaves, maxAcceptableError)
      ensures Stops(old(root), image, maxLeaves, maxAcceptableError) ==> size == old(size)
      ensures !Stops(old(root), image, maxLeaves, maxAcceptableError) ==> size == old(size) + 4 * Splits(root)
      ensures old(root).Leaf? && old(Valid()) ==> Valid() && Decided(root, image, maxLeaves, maxAcceptableError)
    {
      ghost var r0 := root;
      if r0.Leaf? {
        RegulatedShape(r0, image, maxLeaves, maxAcceptableError);
        CountBySplits(Regulated(r0, image, maxLeaves, maxAcceptableError));
      }
      root := RegulatedNode(root, image, maxLeaves, maxAcceptableError);
    }

    method QuadCompression(newPicture: array2<Rgb>)
      requires TreeWithin(root, newPicture.Length0, newPicture.Length1)
      modifies newPicture
      ensures forall i, j :: 0 <= i < newPicture.Length0 && 0 <= j < newPicture.Length1 ==>
        newPicture[i, j] == Render(Fill, root, i, j, old(newPicture[i, j]))
    {
      CompressNode(root, newPicture);
    }

    method QuadCompressionOutlined(newPicture: array2<Rgb>)
      requires TreeWithin(root, newPicture.Length0, newPicture.Length1)
      modifies newPicture
      ensures forall i, j :: 0 <= i < newPicture.Length0 && 0 <= j < newPicture.Length1 ==>
        newPicture[i, j] == Render(Outline, root, i, j, old(newPicture[i, j]))
    {
      OutlineNode(root, newPicture);
    }

    method QuadEdgeOutlined(edgePicture: array2<Rgb>)
      requires TreeWithin(root, edgePicture.Length0, edgePicture.Length1)
      modifies edgePicture
      ensures forall i, j :: 0 <= i < edgePicture.Length0 && 0 <= j < edgePicture.Length1 ==>
        edgePicture[i, j] == Render(Border, root, i, j, old(edgePicture[i, j]))
    {
      EdgeOutlineNode(root, edgePicture);
    }

    method EdgeDetector(origArray: array2<Rgb>, edgeArray: array2<Rgb>)
      requires origArray != edgeArray
      requires TreeWithin(root, origArray.Length0, origArray.Length1)
      requires TreeWithin(root, edgeArray.Length0, edgeArray.Length1)
      requires ReachesKernel(Edge, root) ==> Stencilable(origArray.Length0, origArray.Length1)
      modifies edgeArray
      ensures forall i, j :: 0 <= i < edgeArray.Length0 && 0 <= j < edgeArray.Length1 ==>
        edgeArray[i, j] == Filtered(Edge, root, origArray, i, j, old(edgeArray[i, j]))
    {
      EdgeNode(root, origArray, edgeArray);
    }

    method MotionBlur(origArray: array2<Rgb>, motionArray: array2<Rgb>)
      requires origArray != motionArray
      requires TreeWithin(root, origArray.Length0, origArray.Length1)
      requires TreeWithin(root, motionArray.Length0, motionArray.Length1)
      requires ReachesKernel(Blur, root) ==> Stencilable(origArray.Length0, origArray.Length1)
      modifies motionArray
      ensures forall i, j :: 0 <= i < motionArray.Length0 && 0 <= j < motionArray.Length1 ==>
        motionArray[i, j] == Filtered(Blur, root, origArray, i, j, old(motionArray[i, j]))
    {
      BlurNode(root, origArray, motionArray);
    }
  }
}
