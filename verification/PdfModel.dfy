/** Where `CPdf::add_image` puts an image on its page, in exact arithmetic, and what the preview shows. */
module PdfModel {
  import opened Transforms

  function Min(x: real, y: real): real { if y < x then y else x }

  function Max(x: real, y: real): real { if x < y then y else x }

  function Form(p: real, q: real, x: real, y: real): real {
    p * x + q * y
  }

  /** Least and greatest of the four values a linear form p x + q y takes at the corners of [0, w] x [0, h]. */
  function Lowest(p: real, q: real, w: real, h: real): real {
    Min(Min(0.0, p * w), Min(q * h, p * w + q * h))
  }

  function Highest(p: real, q: real, w: real, h: real): real {
    Max(Max(0.0, p * w), Max(q * h, p * w + q * h))
  }

  /** A page: its size, and the transformation (a, b, c, d, x, y) under which the image is drawn at the origin. */
  datatype Page = Page(width: real, height: real, a: real, b: real, c: real, d: real, x: real, y: real)

  function Place(m: Matrix, w: real, h: real): Page {
    var a, b, c, d := m.a, Negated(m.b), Negated(m.c), m.d;
    Page(Highest(a, c, w, h) - Lowest(a, c, w, h), Highest(b, d, w, h) - Lowest(b, d, w, h),
         a, b, c, d, Negated(Lowest(a, c, w, h)), Negated(Lowest(b, d, w, h)))
  }

  /** A page without a matrix is just the image. */
  function Plain(w: real, h: real): Page {
    Page(w, h, 1.0, 0.0, 0.0, 1.0, 0.0, 0.0)
  }

  datatype Point = Point(x: real, y: real)

  /** The page point, in PDF's upward coordinates, of the point (u, v) of the drawn image. */
  function OnPage(page: Page, p: Point): Point {
    Point(Form(page.a, page.c, p.x, p.y) + page.x, Form(page.b, page.d, p.x, p.y) + page.y)
  }

  predicate Within(p: Point, w: real, h: real) {
    0.0 <= p.x <= w && 0.0 <= p.y <= h
  }

  /** A linear term over an interval lies between its values at the ends. */
  lemma BetweenEnds(k: real, s: real, t: real)
    requires 0.0 <= t <= s
    ensures Min(0.0, k * s) <= k * t <= Max(0.0, k * s)
  {
    if k >= 0.0 {
      assert 0.0 <= k * t && k * (s - t) >= 0.0;
    } else {
      assert k * t <= 0.0 && k * (s - t) <= 0.0;
    }
  }

  lemma FormIsBounded(p: real, q: real, w: real, h: real, x: real, y: real)
    requires 0.0 <= x <= w && 0.0 <= y <= h
    ensures Lowest(p, q, w, h) <= Form(p, q, x, y) <= Highest(p, q, w, h)
  {
    BetweenEnds(p, w, x);
    BetweenEnds(q, h, y);
  }

  /** The page holds the whole image, interior included, for every matrix. */
  lemma PageHoldsImage(m: Matrix, w: real, h: real, p: Point)
    requires Within(p, w, h)
    ensures Within(OnPage(Place(m, w, h), p), Place(m, w, h).width, Place(m, w, h).height)
  {
    var page := Place(m, w, h);
    FormIsBounded(page.a, page.c, w, h, p.x, p.y);
    FormIsBounded(page.b, page.d, w, h, p.x, p.y);
  }

  predicate IsCorner(p: Point, w: real, h: real) {
    (p.x == 0.0 || p.x == w) && (p.y == 0.0 || p.y == h)
  }

  lemma CornersReach(p: real, q: real, w: real, h: real) returns (low: Point, high: Point)
    ensures IsCorner(low, w, h) && Form(p, q, low.x, low.y) == Lowest(p, q, w, h)
    ensures IsCorner(high, w, h) && Form(p, q, high.x, high.y) == Highest(p, q, w, h)
  {
    low := Point(if p * w < 0.0 then w else 0.0, if q * h < 0.0 then h else 0.0);
    high := Point(if p * w < 0.0 then 0.0 else w, if q * h < 0.0 then 0.0 else h);
  }

  /** And no smaller page would: each of its four edges is touched by a corner of the image. */
  lemma PageIsTight(m: Matrix, w: real, h: real) returns (left: Point, right: Point, bottom: Point, top: Point)
    ensures var page := Place(m, w, h);
            && IsCorner(left, w, h) && OnPage(page, left).x == 0.0
            && IsCorner(right, w, h) && OnPage(page, right).x == page.width
            && IsCorner(bottom, w, h) && OnPage(page, bottom).y == 0.0
            && IsCorner(top, w, h) && OnPage(page, top).y == page.height
  {
    var page := Place(m, w, h);
    left, right := CornersReach(page.a, page.c, w, h);
    bottom, top := CornersReach(page.b, page.d, w, h);
  }

  // ---- The preview ----

  /** `QPixmap::transformed`: y points down, and the result is shifted so that its bounding box starts at the origin. */
  function Preview(m: Matrix, w: real, h: real, p: Point): Point {
    Point(Form(m.a, m.c, p.x, p.y) - Lowest(m.a, m.c, w, h), Form(m.b, m.d, p.x, p.y) - Lowest(m.b, m.d, w, h))
  }

  function PreviewWidth(m: Matrix, w: real, h: real): real {
    Highest(m.a, m.c, w, h) - Lowest(m.a, m.c, w, h)
  }

  function PreviewHeight(m: Matrix, w: real, h: real): real {
    Highest(m.b, m.d, w, h) - Lowest(m.b, m.d, w, h)
  }

  /** Where the pixel at (x, y), counted from the image's top, is seen on the page, counted from the page's top. */
  function Seen(page: Page, h: real, pixel: Point): Point {
    var p := OnPage(page, Point(pixel.x, h - pixel.y));
    Point(p.x, page.height - p.y)
  }

  /** Least and greatest of sums of two terms are sums of those of the terms. */
  lemma ExtremesAdd(p: real, q: real, w: real, h: real)
    ensures Lowest(p, q, w, h) == Min(0.0, p * w) + Min(0.0, q * h)
    ensures Highest(p, q, w, h) == Max(0.0, p * w) + Max(0.0, q * h)
  {
    ExtremesOfSum(p * w, q * h);
  }

  lemma ExtremesOfSum(s: real, t: real)
    ensures Min(Min(0.0, s), Min(t, s + t)) == Min(0.0, s) + Min(0.0, t)
    ensures Max(Max(0.0, s), Max(t, s + t)) == Max(0.0, s) + Max(0.0, t)
  {
  }

  lemma ExtremesOfNegated(q: real, h: real)
    ensures Min(0.0, Negated(q) * h) == Min(0.0, q * h) - q * h
    ensures Max(0.0, Negated(q) * h) == Max(0.0, q * h) - q * h
  {
    NegatedTimes(q, h);
  }

  lemma NegatedTimes(q: real, h: real)
    ensures Negated(q) * h == -(q * h)
  {
  }

  /** The extremes of p x - q y over the image and of p x + q y differ by the same shift q h. */
  lemma FlippedExtremes(p: real, q: real, w: real, h: real)
    ensures Lowest(p, Negated(q), w, h) == Lowest(p, q, w, h) - q * h
    ensures Highest(p, Negated(q), w, h) == Highest(p, q, w, h) - q * h
  {
    ExtremesAdd(p, q, w, h);
    ExtremesAdd(p, Negated(q), w, h);
    ExtremesOfNegated(q, h);
  }

  lemma TurnedExtremes(p: real, q: real, w: real, h: real)
    ensures Lowest(Negated(p), q, w, h) == q * h - Highest(p, q, w, h)
    ensures Highest(Negated(p), q, w, h) == q * h - Lowest(p, q, w, h)
  {
    ExtremesAdd(p, q, w, h);
    ExtremesAdd(Negated(p), q, w, h);
    NegatedTimes(p, w);
  }

  lemma FlippedForm(p: real, q: real, h: real, x: real, y: real)
    ensures Form(p, Negated(q), x, h - y) == Form(p, q, x, y) - q * h
    ensures Form(Negated(p), q, x, h - y) == q * h - Form(p, q, x, y)
  {
    assert q * (h - y) == q * h - q * y;
    assert (-q) * (h - y) == -(q * (h - y)) && (-p) * x == -(p * x);
  }

  /**
   The exported page shows exactly what the preview shows, point by point and in size, for every matrix: the two
   negated entries turn Qt's downward picture into PDF's upward one.
   */
  lemma PageShowsPreview(m: Matrix, w: real, h: real, pixel: Point)
    ensures Seen(Place(m, w, h), h, pixel) == Preview(m, w, h, pixel)
    ensures Place(m, w, h).width == PreviewWidth(m, w, h) && Place(m, w, h).height == PreviewHeight(m, w, h)
  {
    FlippedExtremes(m.a, m.c, w, h);
    TurnedExtremes(m.b, m.d, w, h);
    FlippedForm(m.a, m.c, h, pixel.x, pixel.y);
    FlippedForm(m.b, m.d, h, pixel.x, pixel.y);
  }
}
