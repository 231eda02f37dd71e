/** Non-premultiplied pixels, rectangular images as values, and images in memory. */
module Pixels {
  import opened Bytes

  datatype Pixel = Pixel(r: Byte, g: Byte, b: Byte, a: Byte)

  const CLEAR: Pixel := Pixel(0, 0, 0, 0)

  type Line = seq<Pixel>
  type Image = seq<Line>

  predicate Rectangular(img: Image, h: nat, w: nat) {
    |img| == h && forall y :: 0 <= y < h ==> |img[y]| == w
  }

  function Column(img: Image, h: nat, w: nat, x: nat): (c: Line)
    requires Rectangular(img, h, w) && x < w
    ensures |c| == h && forall y :: 0 <= y < h ==> c[y] == img[y][x]
  {
    seq(h, y requires 0 <= y < h => img[y][x])
  }

  function Transpose(img: Image, h: nat, w: nat): (t: Image)
    requires Rectangular(img, h, w)
    ensures Rectangular(t, w, h)
    ensures forall x, y :: 0 <= x < w && 0 <= y < h ==> t[x][y] == img[y][x]
  {
    seq(w, x requires 0 <= x < w => Column(img, h, w, x))
  }

  /** Images that agree at every pixel are equal. */
  lemma SameImage(a: Image, b: Image, h: nat, w: nat)
    requires Rectangular(a, h, w) && Rectangular(b, h, w)
    requires forall y, x :: 0 <= y < h && 0 <= x < w ==> a[y][x] == b[y][x]
    ensures a == b
  {
    forall y | 0 <= y < h ensures a[y] == b[y] {
    }
  }

  /** The value of an image in memory. */
  ghost function Value(a: array2<Pixel>): (img: Image)
    reads a
    ensures Rectangular(img, a.Length0, a.Length1)
    ensures forall y, x :: 0 <= y < a.Length0 && 0 <= x < a.Length1 ==> img[y][x] == a[y, x]
  {
    seq(a.Length0, y requires 0 <= y < a.Length0 reads a =>
      seq(a.Length1, x requires 0 <= x < a.Length1 reads a => a[y, x]))
  }

  method Clone(src: array2<Pixel>) returns (dst: array2<Pixel>)
    ensures fresh(dst) && dst.Length0 == src.Length0 && dst.Length1 == src.Length1
    ensures Value(dst) == Value(src)
  {
    dst := new Pixel[src.Length0, src.Length1]((y, x) => CLEAR);
    forall y, x | 0 <= y < src.Length0 && 0 <= x < src.Length1 {
      dst[y, x] := src[y, x];
    }
    SameImage(Value(dst), Value(src), src.Length0, src.Length1);
  }
}
