/** Geometry of the canvas compositor: the fixed ×8 viewport, rectangles,
    contain-fit placement, and the 2-D affine matrices of a canvas context.
    All arithmetic is exact (`real`); trigonometry stays symbolic. */
module Geometry {

  /** The compositor renders at eight times the authored container size. */
  const CanvasScaleFactor: real := 8.0

  datatype Point = Point(x: real, y: real)

  datatype Rect = Rect(x: real, y: real, width: real, height: real)

  /** The natural size of a decoded image. */
  datatype Raster = Raster(width: real, height: real)

  /** A decoded image: its natural size is positive in both dimensions. */
  type Bitmap = b: Raster | b.width > 0.0 && b.height > 0.0 witness Raster(1.0, 1.0)

  /** The output surface and the authored-to-render ratio along each axis. */
  datatype Viewport = Viewport(width: real, height: real, widthRatio: real, heightRatio: real)

  /** The viewport of `paintMockupToCanvas`, computed as the source does:
      width = w·8, height = width / (w/h), and each ratio as render size over
      authored size. Scaling comes out uniform: both ratios are exactly 8. */
  function ViewportOf(wrapperWidth: real, wrapperHeight: real): (v: Viewport)
    requires wrapperWidth > 0.0 && wrapperHeight > 0.0
    ensures v.widthRatio == CanvasScaleFactor && v.heightRatio == CanvasScaleFactor
    ensures v.width == CanvasScaleFactor * wrapperWidth
    ensures v.height == CanvasScaleFactor * wrapperHeight
  {
    var viewportRatio := wrapperWidth / wrapperHeight;
    var viewportWidth := wrapperWidth * CanvasScaleFactor;
    var viewportHeight := viewportWidth / viewportRatio;
    assert viewportHeight == CanvasScaleFactor * wrapperHeight by {
      assert viewportRatio * wrapperHeight == wrapperWidth;
      assert viewportHeight * viewportRatio == viewportWidth;
    }
    Viewport(viewportWidth, viewportHeight,
             viewportWidth / wrapperWidth, viewportHeight / wrapperHeight)
  }

  /** `imageAspect > w / h` under IEEE-754 division: a zero `h` makes the
      right-hand side +∞ (w > 0), −∞ (w < 0) or NaN (w = 0); only −∞ is
      exceeded by a finite aspect. */
  predicate AspectExceeds(imageAspect: real, w: real, h: real) {
    if h == 0.0 then w < 0.0 else imageAspect > w / h
  }

  /** Contain fit as the compositor computes it: keep the box's extent on the
      axis the image fills and shrink the other to the image's aspect,
      splitting the leftover equally on both sides. */
  function ContainIn(box: Rect, image: Bitmap): (r: Rect)
    ensures box.width > 0.0 && box.height > 0.0 ==> ContainFitted(box, image, r)
  {
    var imageAspect := image.width / image.height;
    if AspectExceeds(imageAspect, box.width, box.height) then
      var drawHeight := box.width / imageAspect;
      var r := Rect(box.x, box.y + (box.height - drawHeight) / 2.0, box.width, drawHeight);
      if box.width > 0.0 && box.height > 0.0 then WiderImageFits(box, image, r); r else r
    else
      var drawWidth := box.height * imageAspect;
      var r := Rect(box.x + (box.width - drawWidth) / 2.0, box.y, drawWidth, box.height);
      if box.width > 0.0 && box.height > 0.0 then TallerImageFits(box, image, r); r else r
  }

  /** What contain fit promises: the drawn rectangle is non-empty, lies inside
      the box, fills it along at least one axis, is centred in it, and has the
      image's aspect ratio. */
  ghost predicate ContainFitted(box: Rect, image: Bitmap, r: Rect) {
    && r.width > 0.0 && r.height > 0.0
    && box.x <= r.x && r.x + r.width <= box.x + box.width
    && box.y <= r.y && r.y + r.height <= box.y + box.height
    && (r.width == box.width || r.height == box.height)
    && r.x - box.x == (box.x + box.width) - (r.x + r.width)
    && r.y - box.y == (box.y + box.height) - (r.y + r.height)
    && r.width * image.height == r.height * image.width
  }

  /** `inner` is a well-formed rectangle lying inside `outer`. */
  predicate Within(inner: Rect, outer: Rect) {
    && inner.width >= 0.0 && inner.height >= 0.0
    && outer.x <= inner.x && inner.x + inner.width <= outer.x + outer.width
    && outer.y <= inner.y && inner.y + inner.height <= outer.y + outer.height
  }

  lemma MulMonotone(x: real, y: real, k: real)
    requires x <= y && k > 0.0
    ensures x * k <= y * k
  {
  }

  lemma MulStrictMonotone(x: real, y: real, k: real)
    requires x < y && k > 0.0
    ensures x * k < y * k
  {
  }

  lemma WiderImageFits(box: Rect, image: Bitmap, r: Rect)
    requires box.width > 0.0 && box.height > 0.0
    requires image.width / image.height > box.width / box.height
    requires r == Rect(box.x, box.y + (box.height - box.width / (image.width / image.height)) / 2.0,
                       box.width, box.width / (image.width / image.height))
    ensures ContainFitted(box, image, r)
  {
    var a := image.width / image.height;
    assert a * image.height == image.width;
    var h := box.width / a;
    assert h * a == box.width;
    assert (box.width / box.height) * box.height == box.width;
    MulStrictMonotone(box.width / box.height, a, box.height);
    assert box.width < a * box.height;
    assert h < box.height;
    assert r.width * image.height == h * a * image.height;
  }

  lemma TallerImageFits(box: Rect, image: Bitmap, r: Rect)
    requires box.width > 0.0 && box.height > 0.0
    requires !(image.width / image.height > box.width / box.height)
    requires r == Rect(box.x + (box.width - box.height * (image.width / image.height)) / 2.0, box.y,
                       box.height * (image.width / image.height), box.height)
    ensures ContainFitted(box, image, r)
  {
    var a := image.width / image.height;
    assert a * image.height == image.width;
    assert (box.width / box.height) * box.height == box.width;
    MulMonotone(a, box.width / box.height, box.height);
    assert a * box.height <= box.width;
  }

  /** A 2-D affine transform in canvas order: a point (x, y) maps to
      (a·x + c·y + e, b·x + d·y + f). */
  datatype Affine = Affine(a: real, b: real, c: real, d: real, e: real, f: real)

  const Identity: Affine := Affine(1.0, 0.0, 0.0, 1.0, 0.0, 0.0)

  function Apply(m: Affine, p: Point): Point {
    Point(m.a * p.x + m.c * p.y + m.e, m.b * p.x + m.d * p.y + m.f)
  }

  /** The current transform `m` post-multiplied by `n`, as every canvas
      `translate`/`rotate`/`scale` call does: `n` acts on points first. */
  function Then(m: Affine, n: Affine): Affine {
    Affine(m.a * n.a + m.c * n.b, m.b * n.a + m.d * n.b,
           m.a * n.c + m.c * n.d, m.b * n.c + m.d * n.d,
           m.a * n.e + m.c * n.f + m.e, m.b * n.e + m.d * n.f + m.f)
  }

  lemma Distribute(k: real, x: real, y: real, z: real)
    ensures k * (x + y + z) == k * x + k * y + k * z
  {
  }

  /** One coordinate of a composed transform, expanded. */
  lemma Expand(ma: real, mc: real, me: real, na: real, nb: real, nc: real, nd: real, ne: real, nf: real,
               px: real, py: real)
    ensures ma * (na * px + nc * py + ne) + mc * (nb * px + nd * py + nf) + me
         == (ma * na + mc * nb) * px + (ma * nc + mc * nd) * py + (ma * ne + mc * nf + me)
  {
    Distribute(ma, na * px, nc * py, ne);
    Distribute(mc, nb * px, nd * py, nf);
    assert ma * (na * px) == (ma * na) * px && ma * (nc * py) == (ma * nc) * py;
    assert mc * (nb * px) == (mc * nb) * px && mc * (nd * py) == (mc * nd) * py;
    DistributeRight(ma * na, mc * nb, px);
    DistributeRight(ma * nc, mc * nd, py);
  }

  lemma DistributeRight(x: real, y: real, k: real)
    ensures (x + y) * k == x * k + y * k
  {
  }

  /** Composition is function composition on points. */
  lemma ThenApplies(m: Affine, n: Affine, p: Point)
    ensures Apply(Then(m, n), p) == Apply(m, Apply(n, p))
  {
    ThenAppliesX(m, n, p);
    ThenAppliesY(m, n, p);
  }

  lemma ThenAppliesX(m: Affine, n: Affine, p: Point)
    ensures Apply(Then(m, n), p).x == Apply(m, Apply(n, p)).x
  {
    var q, t := Apply(n, p), Then(m, n);
    assert q.x == n.a * p.x + n.c * p.y + n.e && q.y == n.b * p.x + n.d * p.y + n.f;
    assert t.a == m.a * n.a + m.c * n.b && t.c == m.a * n.c + m.c * n.d && t.e == m.a * n.e + m.c * n.f + m.e;
    Expand(m.a, m.c, m.e, n.a, n.b, n.c, n.d, n.e, n.f, p.x, p.y);
  }

  lemma ThenAppliesY(m: Affine, n: Affine, p: Point)
    ensures Apply(Then(m, n), p).y == Apply(m, Apply(n, p)).y
  {
    var q, t := Apply(n, p), Then(m, n);
    assert q.x == n.a * p.x + n.c * p.y + n.e && q.y == n.b * p.x + n.d * p.y + n.f;
    assert t.b == m.b * n.a + m.d * n.b && t.d == m.b * n.c + m.d * n.d && t.f == m.b * n.e + m.d * n.f + m.f;
    Expand(m.b, m.d, m.f, n.a, n.b, n.c, n.d, n.e, n.f, p.x, p.y);
  }

  function Translate(tx: real, ty: real): Affine {
    Affine(1.0, 0.0, 0.0, 1.0, tx, ty)
  }

  /** `rotate(θ)` given cos θ and sin θ, which stay uninterpreted. */
  function Rotate(cos: real, sin: real): Affine {
    Affine(cos, sin, -sin, cos, 0.0, 0.0)
  }

  function Scale(sx: real, sy: real): Affine {
    Affine(sx, 0.0, 0.0, sy, 0.0, 0.0)
  }

  /** A uniform scale commutes with any rotation. */
  lemma UniformScaleCommutesWithRotation(cos: real, sin: real, k: real)
    ensures Then(Rotate(cos, sin), Scale(k, k)) == Then(Scale(k, k), Rotate(cos, sin))
  {
  }

  lemma StretchedQuarterTurnShear()
    ensures Then(Rotate(0.0, 1.0), Scale(2.0, 1.0)).b != Then(Scale(2.0, 1.0), Rotate(0.0, 1.0)).b
  {
  }

  /** A non-uniform scale does not: a quarter turn after stretching x is not
      stretching x after a quarter turn. */
  lemma NonUniformScaleDoesNotCommute()
    ensures Then(Rotate(0.0, 1.0), Scale(2.0, 1.0)) != Then(Scale(2.0, 1.0), Rotate(0.0, 1.0))
  {
    StretchedQuarterTurnShear();
  }
}
