/** The integer filters of Filter.java: `negative`, which rewrites every Color object of
    the grid in place through its setters, and `motionBlur`, which writes the blur kernel
    of every cell of a square block of the original picture into a second grid. */
module Filters {
  import opened Colors
  import opened Regions
  import opened Stencil

  /** The negative of one pixel: every channel c becomes 255 - c. */
  function Negated(c: Rgb): (r: Rgb)
    ensures r.red + c.red == 255 && r.green + c.green == 255 && r.blue + c.blue == 255
    ensures InByteRange(c) <==> InByteRange(r)
  {
    Rgb(255 - c.red, 255 - c.green, 255 - c.blue)
  }

  /** Taking the negative twice gives the pixel back. */
  lemma NegatedTwice(c: Rgb)
    ensures Negated(Negated(c)) == c
  {
  }

  /** No Color object appears in two cells of the grid. */
  predicate Unshared(image: array2<Color>)
    reads image
  {
    forall i, j, k, l ::
      0 <= i < image.Length0 && 0 <= j < image.Length1 &&
      0 <= k < image.Length0 && 0 <= l < image.Length1 && (i, j) != (k, l)
      ==> image[i, j] != image[k, l]
  }

  /** The Color objects the grid refers to. */
  function Pixels(image: array2<Color>): set<Color>
    reads image
  {
    set i, j | 0 <= i < image.Length0 && 0 <= j < image.Length1 :: image[i, j]
  }

  /** Filter.negative: each cell's Color object gets 255 minus each of its channels. When
      no object is shared between cells, every cell ends up with the negative of what
      it held; the grid itself still refers to the same objects. */
  method Negative(image: array2<Color>)
    modifies Pixels(image)
    ensures Unshared(image) ==>
      forall i, j :: 0 <= i < image.Length0 && 0 <= j < image.Length1 ==>
        image[i, j].Value() == Negated(old(image[i, j].Value()))
  {
    for i := 0 to image.Length0
      invariant Unshared(image) ==>
        forall a, b :: 0 <= a < image.Length0 && 0 <= b < image.Length1 ==>
          image[a, b].Value() == if a < i then Negated(old(image[a, b].Value())) else old(image[a, b].Value())
    {
      for j := 0 to image.Length1
        invariant Unshared(image) ==>
          forall a, b :: 0 <= a < image.Length0 && 0 <= b < image.Length1 ==>
            image[a, b].Value() == if a < i || (a == i && b < j) then Negated(old(image[a, b].Value()))
                                   else old(image[a, b].Value())
      {
        var c := image[i, j];
        c.SetRed(255 - c.GetRed());
        c.SetGreen(255 - c.GetGreen());
        c.SetBlue(255 - c.GetBlue());
      }
    }
  }

  /** Filter.motionBlur: both loops run over [0, origArray.length), so the blurred block
      is the square of side `rows`; the boundary tests use the real row and column
      counts, so the grid needs at least as many columns as rows, and two rows. */
  method MotionBlur(origArray: array2<Rgb>, motionArray: array2<Rgb>)
    requires origArray != motionArray
    requires origArray.Length0 == 0 || 2 <= origArray.Length0 <= origArray.Length1
    requires motionArray.Length0 >= origArray.Length0 && motionArray.Length1 >= origArray.Length0
    modifies motionArray
    ensures forall i, j :: 0 <= i < motionArray.Length0 && 0 <= j < motionArray.Length1 ==>
      motionArray[i, j] == if i < origArray.Length0 && j < origArray.Length0 then BlurAt(origArray, i, j)
                           else old(motionArray[i, j])
  {
    var rows := origArray.Length0;
    BlurBlock(origArray, motionArray, Rect(0, 0, rows, rows));
  }

  /** A picture with channels in [0, m] blurs to channels in [0, m]: with m = 255 the
      filter keeps a valid picture valid. */
  lemma MotionBlurInRange(origArray: array2<Rgb>, x: int, y: int, ch: Channel, m: int)
    requires InRange(origArray, x, y)
    requires forall a, b :: 0 <= a < origArray.Length0 && 0 <= b < origArray.Length1 ==>
      0 <= Chan(origArray[a, b], ch) <= m
    ensures 0 <= Chan(BlurAt(origArray, x, y), ch) <= m
  {
    BlurBounds(origArray, x, y, ch, m);
  }
}
