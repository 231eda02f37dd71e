/** Blurring the faces of an image one after another, each under its soft elliptical mask. */
module FaceBlur {
  import opened BoxBlur
  import opened Bytes
  import opened FaceMask
  import opened Pixels

  function Bounds(h: nat, w: nat): Rect { Rect(0, 0, w, h) }

  /** A rectangle that lies in an image, possibly empty. */
  predicate Fits(r: Rect, h: nat, w: nat) { 0 <= r.minX <= r.maxX <= w && 0 <= r.minY <= r.maxY <= h }

  function Crop(img: Image, h: nat, w: nat, r: Rect): (c: Image)
    requires Rectangular(img, h, w) && Fits(r, h, w)
    ensures Rectangular(c, r.Dy(), r.Dx())
    ensures forall y, x :: 0 <= y < r.Dy() && 0 <= x < r.Dx() ==> c[y][x] == img[r.minY + y][r.minX + x]
  {
    seq(r.Dy(), y requires 0 <= y < r.Dy() => seq(r.Dx(), x requires 0 <= x < r.Dx() => img[r.minY + y][r.minX + x]))
  }

  method CropOf(src: array2<Pixel>, r: Rect) returns (region: array2<Pixel>)
    requires Fits(r, src.Length0, src.Length1)
    ensures fresh(region) && region.Length0 == r.Dy() && region.Length1 == r.Dx()
    ensures Value(region) == Crop(Value(src), src.Length0, src.Length1, r)
  {
    region := new Pixel[r.Dy(), r.Dx()]((y, x) => CLEAR);
    forall y, x | 0 <= y < r.Dy() && 0 <= x < r.Dx() {
      region[y, x] := src[r.minY + y, r.minX + x];
    }
    SameImage(Value(region), Crop(Value(src), src.Length0, src.Length1, r), r.Dy(), r.Dx());
  }

  // ---------- One face ----------

  /**
   What masking uses of the other modules: the blur and the distance of a point from the centre of a face.
   Naming them keeps the proofs about rectangles and faces apart from those about sums and square roots.
   */
  datatype Tools = Tools(blur: (Image, nat, nat, int) -> Image, distance: Distance)

  ghost predicate Faithful(tools: Tools, sqrt: real -> real) {
    && IsSqrt(sqrt) && Computes(sqrt, tools.distance)
    && forall img, h, w, radius {:trigger Blur(img, h, w, radius)} :: Rectangular(img, h, w) ==>
         tools.blur(img, h, w, radius) == Blur(img, h, w, radius)
  }

  lemma WorkFits(face: Rect, minimumRadius: int, h: nat, w: nat)
    requires !face.Empty()
    ensures Fits(WorkArea(face, minimumRadius, Bounds(h, w)), h, w)
  {
  }

  /** The blurred part of the image that one face needs. */
  function BlurredWork(img: Image, h: nat, w: nat, work: Rect, radius: int, tools: Tools): Image
    requires Rectangular(img, h, w) && Fits(work, h, w)
  {
    tools.blur(Crop(img, h, w, work), work.Dy(), work.Dx(), radius)
  }

  /** The pixel at (x, y) under the mask: masked where the blurred part reaches, unchanged elsewhere. */
  function PastedPixel(under: Pixel, blurred: Image, work: Rect, face: Rect, distance: Distance, y: nat,
                       x: nat): Pixel {
    if distance(face, x, y) < FADE && work.Contains(x, y) && Rectangular(blurred, work.Dy(), work.Dx())
    then Masked(distance(face, x, y), under, blurred[y - work.minY][x - work.minX])
    else under
  }

  function Pasted(img: Image, h: nat, w: nat, blurred: Image, work: Rect, face: Rect, distance: Distance): (r: Image)
    requires Rectangular(img, h, w)
    ensures Rectangular(r, h, w)
    ensures forall y, x :: 0 <= y < h && 0 <= x < w ==>
              r[y][x] == PastedPixel(img[y][x], blurred, work, face, distance, y, x)
  {
    seq(h, y requires 0 <= y < h =>
      seq(w, x requires 0 <= x < w => PastedPixel(img[y][x], blurred, work, face, distance, y, x)))
  }

  function WithFace(img: Image, h: nat, w: nat, face: Rect, minimumRadius: int, tools: Tools): (r: Image)
    requires Rectangular(img, h, w) && !face.Empty()
    ensures Rectangular(r, h, w)
  {
    WorkFits(face, minimumRadius, h, w);
    var work := WorkArea(face, minimumRadius, Bounds(h, w));
    Pasted(img, h, w, BlurredWork(img, h, w, work, Radius(face, minimumRadius), tools), work, face, tools.distance)
  }

  /** Points of the image near the face lie in both rectangles. */
  ghost predicate Covered(distance: Distance, face: Rect, h: nat, w: nat, work: Rect, outer: Rect) {
    forall x, y :: 0 <= y < h && 0 <= x < w && distance(face, x, y) < FADE ==>
      work.Contains(x, y) && outer.Contains(x, y)
  }

  lemma AlwaysCovered(tools: Tools, sqrt: real -> real, face: Rect, minimumRadius: int, h: nat, w: nat)
    requires Faithful(tools, sqrt) && !face.Empty()
    ensures Covered(tools.distance, face, h, w, WorkArea(face, minimumRadius, Bounds(h, w)), OuterBox(face))
  {
    forall x, y | 0 <= y < h && 0 <= x < w && tools.distance(face, x, y) < FADE
      ensures WorkArea(face, minimumRadius, Bounds(h, w)).Contains(x, y) && OuterBox(face).Contains(x, y)
    {
      DistanceIsInside(sqrt, tools.distance, face, x, y);
      RectanglesCoverEllipse(face, minimumRadius, Bounds(h, w), x, y);
    }
  }

  /** The pixels that the loops of the mask visit. */
  function MaskArea(outer: Rect, h: nat, w: nat, blurred: Rect): Rect {
    outer.Intersect(Bounds(h, w)).Intersect(blurred)
  }

  /** What the loops write is the mask, since the ellipse reaches beyond none of the rectangles. */
  lemma LoopsPaste(before: Image, after: Image, h: nat, w: nat, blurred: Image, work: Rect, outer: Rect, face: Rect,
                   distance: Distance)
    requires Rectangular(before, h, w) && Rectangular(after, h, w)
    requires Fits(work, h, w) && Rectangular(blurred, work.Dy(), work.Dx())
    requires Covered(distance, face, h, w, work, outer)
    requires var area := MaskArea(outer, h, w, Bounds(work.Dy(), work.Dx()).Add(work.minX, work.minY));
             forall y, x :: 0 <= y < h && 0 <= x < w ==>
               after[y][x] == if area.Contains(x, y)
                              then Masked(distance(face, x, y), before[y][x], blurred[y - work.minY][x - work.minX])
                              else before[y][x]
    ensures after == Pasted(before, h, w, blurred, work, face, distance)
  {
    SameImage(after, Pasted(before, h, w, blurred, work, face, distance), h, w);
  }

  method ApplySoftEllipse(dst: array2<Pixel>, blurred: array2<Pixel>, originX: int, originY: int, face: Rect,
                          sqrt: real -> real, ghost distance: Distance)
    requires dst != blurred && Computes(sqrt, distance)
    modifies dst
    ensures var area := MaskArea(OuterBox(face), dst.Length0, dst.Length1,
                                 Bounds(blurred.Length0, blurred.Length1).Add(originX, originY));
            forall y, x :: 0 <= y < dst.Length0 && 0 <= x < dst.Length1 ==>
              dst[y, x] == if area.Contains(x, y)
                           then Masked(distance(face, x, y), old(dst[y, x]), blurred[y - originY, x - originX])
                           else old(dst[y, x])
  {
    var e := EllipseOf(face);
    var area := MaskArea(OuterBox(face), dst.Length0, dst.Length1,
                         Bounds(blurred.Length0, blurred.Length1).Add(originX, originY));
    var y := area.minY;
    while y < area.maxY
      invariant area.minY <= y
      invariant forall v, u :: 0 <= v < dst.Length0 && 0 <= u < dst.Length1 ==>
                  dst[v, u] == if area.Contains(u, v) && v < y
                               then Masked(distance(face, u, v), old(dst[v, u]), blurred[v - originY, u - originX])
                               else old(dst[v, u])
    {
      var x := area.minX;
      while x < area.maxX
        invariant area.minX <= x
        invariant forall v, u :: 0 <= v < dst.Length0 && 0 <= u < dst.Length1 ==>
                    dst[v, u] == if area.Contains(u, v) && (v < y || (v == y && u < x))
                                 then Masked(distance(face, u, v), old(dst[v, u]), blurred[v - originY, u - originX])
                                 else old(dst[v, u])
      {
        assert area.Contains(x, y);
        var d := sqrt(Distance2(e, x, y));
        assert d == distance(face, x, y);
        if d < FADE {
          var weight := Weight(d);
          var over := blurred[y - originY, x - originX];
          if weight >= 1.0 {
            dst[y, x] := over;
          } else {
            var under := dst[y, x];
            dst[y, x] := Pixel(BlendChannel(under.r, over.r, weight), BlendChannel(under.g, over.g, weight),
                               BlendChannel(under.b, over.b, weight), BlendChannel(under.a, over.a, weight));
          }
        }
        x := x + 1;
      }
      y := y + 1;
    }
  }

  // ---------- All faces ----------

  /** A face as far as it lies in the image. */
  function Clipped(face: Rect, h: nat, w: nat): Rect { face.Intersect(Bounds(h, w)) }

  /** A face drawn as far as it lies in the image, and skipped when nothing is left of it. */
  function Drawn(img: Image, h: nat, w: nat, face: Rect, minimumRadius: int, tools: Tools): Image {
    if Rectangular(img, h, w) && !Clipped(face, h, w).Empty()
    then WithFace(img, h, w, Clipped(face, h, w), minimumRadius, tools)
    else img
  }

  type Draw = (Image, Rect) -> Image

  function Drawing(h: nat, w: nat, minimumRadius: int, tools: Tools): Draw {
    (img, face) => Drawn(img, h, w, face, minimumRadius, tools)
  }

  /** The image after the first `n` faces, one drawn over the other. */
  function AfterFaces(img: Image, faces: seq<Rect>, n: nat, draw: Draw): Image
    requires n <= |faces|
  {
    if n == 0 then img else draw(AfterFaces(img, faces, n - 1, draw), faces[n - 1])
  }

  method BlurFaceRegions(src: array2<Pixel>, faces: seq<Rect>, minimumRadius: int, sqrt: real -> real,
                         ghost tools: Tools)
    returns (dst: array2<Pixel>)
    requires Faithful(tools, sqrt)
    ensures fresh(dst) && dst.Length0 == src.Length0 && dst.Length1 == src.Length1
    ensures Value(dst) == AfterFaces(Value(src), faces, |faces|,
                                     Drawing(src.Length0, src.Length1, minimumRadius, tools))
    ensures FacesAreBlurred(Value(src), Value(dst), src.Length0, src.Length1, faces, minimumRadius)
  {
    var h, w := src.Length0, src.Length1;
    FacesBlurred(Value(src), h, w, faces, minimumRadius, sqrt, tools);
    ghost var img, draw := Value(src), Drawing(h, w, minimumRadius, tools);
    dst := Clone(src);
    for i := 0 to |faces|
      invariant fresh(dst) && dst.Length0 == h && dst.Length1 == w
      invariant Value(dst) == AfterFaces(img, faces, i, draw)
    {
      var face := faces[i].Intersect(Bounds(h, w));
      if !face.Empty() {
        BlurFace(dst, face, minimumRadius, sqrt, tools);
      }
    }
  }

  /** The body of the loop over the faces. */
  method BlurFace(dst: array2<Pixel>, face: Rect, minimumRadius: int, sqrt: real -> real, ghost tools: Tools)
    requires !face.Empty() && Faithful(tools, sqrt)
    modifies dst
    ensures Value(dst) == WithFace(old(Value(dst)), dst.Length0, dst.Length1, face, minimumRadius, tools)
  {
    var h, w := dst.Length0, dst.Length1;
    ghost var before := Value(dst);
    var radius := Radius(face, minimumRadius);
    var work := WorkArea(face, minimumRadius, Bounds(h, w));
    WorkFits(face, minimumRadius, h, w);
    AlwaysCovered(tools, sqrt, face, minimumRadius, h, w);
    var blurred := BlurredRegion(dst, work, radius, sqrt, tools);
    ghost var over := Value(blurred);
    PasteSoftly(dst, blurred, work, face, sqrt, tools.distance);
    assert Value(dst) == Pasted(before, h, w, over, work, face, tools.distance);
  }

  method PasteSoftly(dst: array2<Pixel>, blurred: array2<Pixel>, work: Rect, face: Rect, sqrt: real -> real,
                     ghost distance: Distance)
    requires dst != blurred && Computes(sqrt, distance)
    requires Fits(work, dst.Length0, dst.Length1) && blurred.Length0 == work.Dy() && blurred.Length1 == work.Dx()
    requires Covered(distance, face, dst.Length0, dst.Length1, work, OuterBox(face))
    modifies dst
    ensures Value(dst) == Pasted(old(Value(dst)), dst.Length0, dst.Length1, Value(blurred), work, face, distance)
  {
    ghost var before := Value(dst);
    ApplySoftEllipse(dst, blurred, work.minX, work.minY, face, sqrt, distance);
    LoopsPaste(before, Value(dst), dst.Length0, dst.Length1, Value(blurred), work, OuterBox(face), face, distance);
  }

  /** A region copied out of the image and blurred. */
  method BlurredRegion(src: array2<Pixel>, work: Rect, radius: int, sqrt: real -> real,
                       ghost tools: Tools) returns (blurred: array2<Pixel>)
    requires Fits(work, src.Length0, src.Length1) && Faithful(tools, sqrt)
    ensures fresh(blurred) && blurred.Length0 == work.Dy() && blurred.Length1 == work.Dx()
    ensures Value(blurred) == BlurredWork(Value(src), src.Length0, src.Length1, work, radius, tools)
  {
    var region := CropOf(src, work);
    blurred := BlurNRGBA(region, radius);
  }

  // ---------- Theorems ----------

  predicate Far(face: Rect, h: nat, w: nat, distance: Distance, y: nat, x: nat) {
    Clipped(face, h, w).Empty() || distance(Clipped(face, h, w), x, y) >= FADE
  }

  lemma FarStays(img: Image, h: nat, w: nat, face: Rect, minimumRadius: int, tools: Tools, y: nat, x: nat)
    requires Rectangular(img, h, w) && y < h && x < w && Far(face, h, w, tools.distance, y, x)
    ensures Rectangular(Drawn(img, h, w, face, minimumRadius, tools), h, w)
    ensures Drawn(img, h, w, face, minimumRadius, tools)[y][x] == img[y][x]
  {
  }

  ghost predicate Stays(draw: Draw, face: Rect, h: nat, w: nat, y: nat, x: nat)
    requires y < h && x < w
  {
    forall img {:trigger draw(img, face)} :: Rectangular(img, h, w) ==>
      Rectangular(draw(img, face), h, w) && draw(img, face)[y][x] == img[y][x]
  }

  lemma {:induction false} FacesStay(img: Image, h: nat, w: nat, faces: seq<Rect>, n: nat, draw: Draw, y: nat, x: nat)
    requires Rectangular(img, h, w) && n <= |faces| && y < h && x < w
    requires forall i :: 0 <= i < n ==> Stays(draw, faces[i], h, w, y, x)
    ensures Rectangular(AfterFaces(img, faces, n, draw), h, w) && AfterFaces(img, faces, n, draw)[y][x] == img[y][x]
  {
    if n > 0 {
      FacesStay(img, h, w, faces, n - 1, draw, y, x);
      assert Stays(draw, faces[n - 1], h, w, y, x);
    }
  }

  lemma FarFaceStays(face: Rect, h: nat, w: nat, minimumRadius: int, tools: Tools, y: nat, x: nat)
    requires y < h && x < w && Far(face, h, w, tools.distance, y, x)
    ensures Stays(Drawing(h, w, minimumRadius, tools), face, h, w, y, x)
  {
    forall img | Rectangular(img, h, w)
      ensures && Rectangular(Drawn(img, h, w, face, minimumRadius, tools), h, w)
              && Drawn(img, h, w, face, minimumRadius, tools)[y][x] == img[y][x]
    {
      FarStays(img, h, w, face, minimumRadius, tools, y, x);
    }
  }

  /** A pixel outside every face's outer ellipse is what it was. */
  lemma OutsideUnchanged(img: Image, h: nat, w: nat, faces: seq<Rect>, minimumRadius: int, tools: Tools, y: nat, x: nat)
    requires Rectangular(img, h, w) && y < h && x < w
    requires forall i :: 0 <= i < |faces| ==> Far(faces[i], h, w, tools.distance, y, x)
    ensures Rectangular(AfterFaces(img, faces, |faces|, Drawing(h, w, minimumRadius, tools)), h, w)
    ensures AfterFaces(img, faces, |faces|, Drawing(h, w, minimumRadius, tools))[y][x] == img[y][x]
  {
    var draw := Drawing(h, w, minimumRadius, tools);
    forall i | 0 <= i < |faces| ensures Stays(draw, faces[i], h, w, y, x) {
      FarFaceStays(faces[i], h, w, minimumRadius, tools, y, x);
    }
    FacesStay(img, h, w, faces, |faces|, draw, y, x);
  }

  lemma FacePixel(img: Image, h: nat, w: nat, face: Rect, work: Rect, minimumRadius: int, tools: Tools, y: nat, x: nat)
    requires Rectangular(img, h, w) && y < h && x < w && !face.Empty()
    requires work == WorkArea(face, minimumRadius, Bounds(h, w)) && Fits(work, h, w)
    ensures WithFace(img, h, w, face, minimumRadius, tools)[y][x]
         == PastedPixel(img[y][x], BlurredWork(img, h, w, work, Radius(face, minimumRadius), tools), work, face,
                        tools.distance, y, x)
  {
  }

  /** Beyond the outer ellipse of a face the image stays. */
  lemma FaceOutside(img: Image, h: nat, w: nat, face: Rect, minimumRadius: int, sqrt: real -> real, tools: Tools,
                    y: nat, x: nat)
    requires Faithful(tools, sqrt) && Rectangular(img, h, w) && y < h && x < w && !face.Empty()
    requires !Inside(face, x, y, FADE)
    ensures WithFace(img, h, w, face, minimumRadius, tools)[y][x] == img[y][x]
  {
    WorkFits(face, minimumRadius, h, w);
    DistanceIsInside(sqrt, tools.distance, face, x, y);
    FacePixel(img, h, w, face, WorkArea(face, minimumRadius, Bounds(h, w)), minimumRadius, tools, y, x);
  }

  /** A pixel within the outer ellipse of a face lies in its work area, which lies in the image. */
  lemma FaceCovered(h: nat, w: nat, face: Rect, minimumRadius: int, y: nat, x: nat)
    requires y < h && x < w && !face.Empty() && Inside(face, x, y, FADE)
    ensures var work := WorkArea(face, minimumRadius, Bounds(h, w)); Fits(work, h, w) && work.Contains(x, y)
  {
    WorkFits(face, minimumRadius, h, w);
    RectanglesCoverEllipse(face, minimumRadius, Bounds(h, w), x, y);
  }

  /**
   Within the outer ellipse the value of a pixel lies channel by channel between what it was and the full blur of
   that step; in the solid part it is the full blur.
   */
  lemma FaceInside(img: Image, h: nat, w: nat, face: Rect, work: Rect, minimumRadius: int, sqrt: real -> real,
                   tools: Tools, y: nat, x: nat)
    requires Faithful(tools, sqrt) && Rectangular(img, h, w) && y < h && x < w && !face.Empty()
    requires Inside(face, x, y, FADE) && work == WorkArea(face, minimumRadius, Bounds(h, w)) && Fits(work, h, w)
    requires work.Contains(x, y)
    ensures Masks(WithFace(img, h, w, face, minimumRadius, tools)[y][x], img[y][x],
                  Blur(Crop(img, h, w, work), work.Dy(), work.Dx(),
                       Radius(face, minimumRadius))[y - work.minY][x - work.minX],
                  Distance2(EllipseOf(face), x, y) <= SOLID * SOLID)
  {
    var radius := Radius(face, minimumRadius);
    FullBlurIs(img, h, w, work, radius, sqrt, tools);
    FacePixel(img, h, w, face, work, minimumRadius, tools, y, x);
    MaskedStep(img[y][x], BlurredWork(img, h, w, work, radius, tools), work, face, sqrt, tools.distance, y, x);
  }

  /** The full blur of a step is that of the image cut to the work area. */
  lemma FullBlurIs(img: Image, h: nat, w: nat, work: Rect, radius: int, sqrt: real -> real, tools: Tools)
    requires Faithful(tools, sqrt) && Rectangular(img, h, w) && Fits(work, h, w)
    ensures BlurredWork(img, h, w, work, radius, tools) == Blur(Crop(img, h, w, work), work.Dy(), work.Dx(), radius)
    ensures Rectangular(BlurredWork(img, h, w, work, radius, tools), work.Dy(), work.Dx())
  {
  }

  ghost predicate Masks(after: Pixel, before: Pixel, full: Pixel, solid: bool) {
    PixelBetween(after, before, full) && (solid ==> after == full)
  }

  lemma MaskedStep(under: Pixel, blurred: Image, work: Rect, face: Rect, sqrt: real -> real, distance: Distance,
                   y: nat, x: nat)
    requires IsSqrt(sqrt) && Computes(sqrt, distance) && !face.Empty()
    requires work.Contains(x, y) && Inside(face, x, y, FADE) && Rectangular(blurred, work.Dy(), work.Dx())
    ensures Masks(PastedPixel(under, blurred, work, face, distance, y, x), under, blurred[y - work.minY][x - work.minX],
                  Distance2(EllipseOf(face), x, y) <= SOLID * SOLID)
  {
    DistanceIsInside(sqrt, distance, face, x, y);
    MaskedMeaning(distance(face, x, y), under, blurred[y - work.minY][x - work.minX]);
  }

  // ---------- What becomes of every pixel ----------

  /** The pixel is outside the outer ellipse of the face, or nothing of the face is in the image. */
  predicate Misses(face: Rect, h: nat, w: nat, y: nat, x: nat) {
    Clipped(face, h, w).Empty() || !Inside(Clipped(face, h, w), x, y, FADE)
  }

  /** The full blur that is laid over a face at a pixel: that of the image around it, cut to the work area. */
  function FullBlur(before: Image, h: nat, w: nat, face: Rect, minimumRadius: int, y: nat, x: nat): Pixel
    requires Rectangular(before, h, w) && !face.Empty()
    requires var work := WorkArea(face, minimumRadius, Bounds(h, w)); Fits(work, h, w) && work.Contains(x, y)
  {
    var work := WorkArea(face, minimumRadius, Bounds(h, w));
    Blur(Crop(before, h, w, work), work.Dy(), work.Dx(), Radius(face, minimumRadius))[y - work.minY][x - work.minX]
  }

  /** One face, drawn over the image before: blurred inside its solid part, blended in the band, unchanged elsewhere. */
  ghost predicate ShowsFace(before: Image, after: Pixel, h: nat, w: nat, face: Rect, minimumRadius: int, y: nat, x: nat)
    requires Rectangular(before, h, w) && y < h && x < w
  {
    if Misses(face, h, w, y, x) then after == before[y][x]
    else
      var clipped := Clipped(face, h, w);
      var work := WorkArea(clipped, minimumRadius, Bounds(h, w));
      && Fits(work, h, w) && work.Contains(x, y)
      && Masks(after, before[y][x], FullBlur(before, h, w, clipped, minimumRadius, y, x),
               Distance2(EllipseOf(clipped), x, y) <= SOLID * SOLID)
  }

  ghost predicate ShowsEverywhere(before: Image, after: Image, h: nat, w: nat, face: Rect, minimumRadius: int)
    requires Rectangular(before, h, w) && Rectangular(after, h, w)
  {
    forall y: nat, x: nat :: y < h && x < w ==> ShowsFace(before, after[y][x], h, w, face, minimumRadius, y, x)
  }

  /** The images from one face to the next. */
  ghost predicate IsFaceHistory(steps: seq<Image>, before: Image, after: Image, h: nat, w: nat, faces: seq<Rect>,
                                minimumRadius: int) {
    && |steps| == |faces| + 1 && steps[0] == before && steps[|faces|] == after
    && (forall i :: 0 <= i < |steps| ==> Rectangular(steps[i], h, w))
    && forall i :: 0 <= i < |faces| ==> ShowsEverywhere(steps[i], steps[i + 1], h, w, faces[i], minimumRadius)
  }

  /** All later faces miss the pixel. */
  predicate IsLast(faces: seq<Rect>, i: nat, h: nat, w: nat, y: nat, x: nat) {
    forall j :: i < j < |faces| ==> Misses(faces[j], h, w, y, x)
  }

  /** At the end a pixel shows the last face that does not miss it, drawn over the image with the faces before. */
  ghost predicate ShowsLastFaces(steps: seq<Image>, after: Image, h: nat, w: nat, faces: seq<Rect>, minimumRadius: int)
    requires |steps| == |faces| + 1 && Rectangular(after, h, w)
    requires forall i :: 0 <= i < |steps| ==> Rectangular(steps[i], h, w)
  {
    forall i: nat, y: nat, x: nat {:trigger IsLast(faces, i, h, w, y, x)} ::
      i < |faces| && y < h && x < w && IsLast(faces, i, h, w, y, x) ==>
        ShowsFace(steps[i], after[y][x], h, w, faces[i], minimumRadius, y, x)
  }

  ghost predicate FacesAreBlurred(before: Image, after: Image, h: nat, w: nat, faces: seq<Rect>, minimumRadius: int) {
    exists steps :: IsFaceHistory(steps, before, after, h, w, faces, minimumRadius)
                    && ShowsLastFaces(steps, after, h, w, faces, minimumRadius)
  }

  lemma DrawnShows(img: Image, h: nat, w: nat, face: Rect, minimumRadius: int, sqrt: real -> real, tools: Tools,
                   y: nat, x: nat)
    requires Faithful(tools, sqrt) && Rectangular(img, h, w) && y < h && x < w
    ensures Rectangular(Drawn(img, h, w, face, minimumRadius, tools), h, w)
    ensures ShowsFace(img, Drawn(img, h, w, face, minimumRadius, tools)[y][x], h, w, face, minimumRadius, y, x)
  {
    var clipped := Clipped(face, h, w);
    if !clipped.Empty() && Misses(face, h, w, y, x) {
      FaceOutside(img, h, w, clipped, minimumRadius, sqrt, tools, y, x);
    } else if !clipped.Empty() {
      FaceShows(img, h, w, face, minimumRadius, sqrt, tools, y, x);
    }
  }

  lemma FaceShows(img: Image, h: nat, w: nat, face: Rect, minimumRadius: int, sqrt: real -> real, tools: Tools,
                  y: nat, x: nat)
    requires Faithful(tools, sqrt) && Rectangular(img, h, w) && y < h && x < w && !Misses(face, h, w, y, x)
    ensures ShowsFace(img, WithFace(img, h, w, Clipped(face, h, w), minimumRadius, tools)[y][x], h, w, face,
                      minimumRadius, y, x)
  {
    FaceCovered(h, w, Clipped(face, h, w), minimumRadius, y, x);
    MasksFully(img, h, w, Clipped(face, h, w), minimumRadius, sqrt, tools, y, x);
  }

  lemma MasksFully(img: Image, h: nat, w: nat, face: Rect, minimumRadius: int, sqrt: real -> real, tools: Tools,
                   y: nat, x: nat)
    requires Faithful(tools, sqrt) && Rectangular(img, h, w) && y < h && x < w && !face.Empty()
    requires Inside(face, x, y, FADE)
    requires var work := WorkArea(face, minimumRadius, Bounds(h, w)); Fits(work, h, w) && work.Contains(x, y)
    ensures Masks(WithFace(img, h, w, face, minimumRadius, tools)[y][x], img[y][x],
                  FullBlur(img, h, w, face, minimumRadius, y, x), Distance2(EllipseOf(face), x, y) <= SOLID * SOLID)
  {
    var work, radius := WorkArea(face, minimumRadius, Bounds(h, w)), Radius(face, minimumRadius);
    var blurred := BlurredWork(img, h, w, work, radius, tools);
    FullBlurIs(img, h, w, work, radius, sqrt, tools);
    FacePixel(img, h, w, face, work, minimumRadius, tools, y, x);
    MaskedStep(img[y][x], blurred, work, face, sqrt, tools.distance, y, x);
    PixelOfFullBlur(img, h, w, face, work, minimumRadius, blurred, y, x);
  }

  lemma PixelOfFullBlur(img: Image, h: nat, w: nat, face: Rect, work: Rect, minimumRadius: int, blurred: Image,
                        y: nat, x: nat)
    requires Rectangular(img, h, w) && !face.Empty() && work == WorkArea(face, minimumRadius, Bounds(h, w))
    requires Fits(work, h, w) && work.Contains(x, y)
    requires blurred == Blur(Crop(img, h, w, work), work.Dy(), work.Dx(), Radius(face, minimumRadius))
    ensures FullBlur(img, h, w, face, minimumRadius, y, x) == blurred[y - work.minY][x - work.minX]
  {
  }

  /** The images from one face to the next, as they are drawn. */
  function Steps(img: Image, faces: seq<Rect>, draw: Draw): seq<Image> {
    seq(|faces| + 1, i requires 0 <= i <= |faces| => AfterFaces(img, faces, i, draw))
  }

  /** Drawing a face shows it, whatever the image before. */
  ghost predicate Draws(draw: Draw, h: nat, w: nat, minimumRadius: int) {
    forall img, face {:trigger draw(img, face)} :: Rectangular(img, h, w) ==>
      Rectangular(draw(img, face), h, w) && ShowsEverywhere(img, draw(img, face), h, w, face, minimumRadius)
  }

  lemma DrawingDraws(h: nat, w: nat, minimumRadius: int, sqrt: real -> real, tools: Tools)
    requires Faithful(tools, sqrt)
    ensures Draws(Drawing(h, w, minimumRadius, tools), h, w, minimumRadius)
  {
    forall img, face | Rectangular(img, h, w)
      ensures Rectangular(Drawn(img, h, w, face, minimumRadius, tools), h, w)
      ensures ShowsEverywhere(img, Drawn(img, h, w, face, minimumRadius, tools), h, w, face, minimumRadius)
    {
      DrawnShowsEverywhere(img, h, w, face, minimumRadius, sqrt, tools);
    }
  }

  lemma {:induction false} StepsAreImages(img: Image, h: nat, w: nat, faces: seq<Rect>, n: nat, draw: Draw,
                                          minimumRadius: int)
    requires Rectangular(img, h, w) && n <= |faces| && Draws(draw, h, w, minimumRadius)
    ensures Rectangular(AfterFaces(img, faces, n, draw), h, w)
  {
    if n > 0 {
      StepsAreImages(img, h, w, faces, n - 1, draw, minimumRadius);
    }
  }

  lemma DrawnShowsEverywhere(img: Image, h: nat, w: nat, face: Rect, minimumRadius: int, sqrt: real -> real,
                             tools: Tools)
    requires Faithful(tools, sqrt) && Rectangular(img, h, w)
    ensures Rectangular(Drawn(img, h, w, face, minimumRadius, tools), h, w)
    ensures ShowsEverywhere(img, Drawn(img, h, w, face, minimumRadius, tools), h, w, face, minimumRadius)
  {
    DrawnIsImage(img, h, w, face, minimumRadius, tools);
    var after := Drawn(img, h, w, face, minimumRadius, tools);
    forall y: nat, x: nat | y < h && x < w
      ensures ShowsFace(img, after[y][x], h, w, face, minimumRadius, y, x)
    {
      DrawnShows(img, h, w, face, minimumRadius, sqrt, tools, y, x);
    }
  }

  lemma DrawnIsImage(img: Image, h: nat, w: nat, face: Rect, minimumRadius: int, tools: Tools)
    requires Rectangular(img, h, w)
    ensures Rectangular(Drawn(img, h, w, face, minimumRadius, tools), h, w)
  {
  }

  lemma FacesBlurred(img: Image, h: nat, w: nat, faces: seq<Rect>, minimumRadius: int, sqrt: real -> real, tools: Tools)
    requires Faithful(tools, sqrt) && Rectangular(img, h, w)
    ensures FacesAreBlurred(img, AfterFaces(img, faces, |faces|, Drawing(h, w, minimumRadius, tools)), h, w, faces,
                            minimumRadius)
  {
    DrawingDraws(h, w, minimumRadius, sqrt, tools);
    FacesDrawn(img, h, w, faces, Drawing(h, w, minimumRadius, tools), minimumRadius);
  }

  lemma NextFace(img: Image, faces: seq<Rect>, i: nat, draw: Draw)
    requires i < |faces|
    ensures Steps(img, faces, draw)[i + 1] == draw(Steps(img, faces, draw)[i], faces[i])
  {
    assert AfterFaces(img, faces, i + 1, draw) == draw(AfterFaces(img, faces, i, draw), faces[i]);
  }

  lemma FacesDrawn(img: Image, h: nat, w: nat, faces: seq<Rect>, draw: Draw, minimumRadius: int)
    requires Rectangular(img, h, w) && Draws(draw, h, w, minimumRadius)
    ensures FacesAreBlurred(img, AfterFaces(img, faces, |faces|, draw), h, w, faces, minimumRadius)
  {
    var steps, after := Steps(img, faces, draw), AfterFaces(img, faces, |faces|, draw);
    forall i | 0 <= i <= |faces| ensures Rectangular(steps[i], h, w) {
      StepsAreImages(img, h, w, faces, i, draw, minimumRadius);
    }
    forall i | 0 <= i < |faces| ensures ShowsEverywhere(steps[i], steps[i + 1], h, w, faces[i], minimumRadius) {
      NextFace(img, faces, i, draw);
    }
    LastFacesShow(steps, img, after, h, w, faces, minimumRadius);
  }

  lemma LastFacesShow(steps: seq<Image>, before: Image, after: Image, h: nat, w: nat, faces: seq<Rect>,
                      minimumRadius: int)
    requires IsFaceHistory(steps, before, after, h, w, faces, minimumRadius)
    ensures ShowsLastFaces(steps, after, h, w, faces, minimumRadius)
  {
    forall i: nat, y: nat, x: nat {:trigger IsLast(faces, i, h, w, y, x)} |
      i < |faces| && y < h && x < w && IsLast(faces, i, h, w, y, x)
      ensures ShowsFace(steps[i], after[y][x], h, w, faces[i], minimumRadius, y, x)
    {
      MissedToTheEnd(steps, before, after, h, w, faces, minimumRadius, i + 1, y, x);
      assert ShowsEverywhere(steps[i], steps[i + 1], h, w, faces[i], minimumRadius);
    }
  }

  lemma {:induction false} MissedToTheEnd(steps: seq<Image>, before: Image, after: Image, h: nat, w: nat,
                                          faces: seq<Rect>, minimumRadius: int, i: nat, y: nat, x: nat)
    requires IsFaceHistory(steps, before, after, h, w, faces, minimumRadius) && i <= |faces| && y < h && x < w
    requires forall j :: i <= j < |faces| ==> Misses(faces[j], h, w, y, x)
    ensures after[y][x] == steps[i][y][x]
    decreases |faces| - i
  {
    if i < |faces| {
      MissedToTheEnd(steps, before, after, h, w, faces, minimumRadius, i + 1, y, x);
      assert ShowsEverywhere(steps[i], steps[i + 1], h, w, faces[i], minimumRadius);
      assert ShowsFace(steps[i], steps[i + 1][y][x], h, w, faces[i], minimumRadius, y, x);
    }
  }
}
