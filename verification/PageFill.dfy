/** When the image fills its page: after any presses, and for which matrices in general. */
module PageFill {
  import opened Transforms
  import opened PdfModel

  /** No shear: the axes are kept or exchanged. */
  predicate Straight(m: Matrix) {
    (m.b == 0.0 && m.c == 0.0) || (m.a == 0.0 && m.d == 0.0)
  }

  /** Every point of the page shows a point of the image. */
  ghost predicate Fills(m: Matrix, w: real, h: real) {
    forall q :: Within(q, Place(m, w, h).width, Place(m, w, h).height) ==> Covered(m, w, h, q)
  }

  ghost predicate Covered(m: Matrix, w: real, h: real, q: Point) {
    exists p :: Within(p, w, h) && OnPage(Place(m, w, h), p) == q
  }

  /** A form with two non-zero coefficients is lowest at one corner only. */
  lemma LowestIsUnique(p: real, q: real, w: real, h: real, x: real, y: real)
    requires p != 0.0 && q != 0.0 && 0.0 <= x <= w && 0.0 <= y <= h
    requires Form(p, q, x, y) == Lowest(p, q, w, h)
    ensures x == (if p > 0.0 then 0.0 else w) && y == (if q > 0.0 then 0.0 else h)
  {
    BetweenEnds(p, w, x);
    BetweenEnds(q, h, y);
    assert p * x == Min(0.0, p * w) && q * y == Min(0.0, q * h);
    EndIsUnique(p, w, x);
    EndIsUnique(q, h, y);
  }

  lemma EndIsUnique(k: real, s: real, t: real)
    requires k != 0.0 && 0.0 <= t <= s && k * t == Min(0.0, k * s)
    ensures t == if k > 0.0 then 0.0 else s
  {
    if k > 0.0 {
      assert k * s >= 0.0;
    } else {
      assert k * s <= 0.0;
      assert k * (t - s) == 0.0;
    }
  }

  lemma SpreadIsPositive(p: real, q: real, w: real, h: real)
    requires w > 0.0 && h > 0.0 && (p != 0.0 || q != 0.0)
    ensures Highest(p, q, w, h) - Lowest(p, q, w, h) > 0.0
  {
    assert p > 0.0 ==> p * w > 0.0;
    assert p < 0.0 ==> p * w < 0.0;
    assert q > 0.0 ==> q * h > 0.0;
    assert q < 0.0 ==> q * h < 0.0;
  }

  /** If both entries that make up x are non-zero, the left edge of the page has an uncovered end. */
  lemma SlantedLeavesGap(m: Matrix, w: real, h: real)
    requires w > 0.0 && h > 0.0 && m.a != 0.0 && m.c != 0.0 && (m.b != 0.0 || m.d != 0.0)
    ensures !Fills(m, w, h)
  {
    var page := Place(m, w, h);
    SpreadIsPositive(page.b, page.d, w, h);
    SpreadIsPositive(page.a, page.c, w, h);
    var low, high := Point(0.0, 0.0), Point(0.0, page.height);
    if Covered(m, w, h, low) && Covered(m, w, h, high) {
      var p :| Within(p, w, h) && OnPage(page, p) == low;
      var r :| Within(r, w, h) && OnPage(page, r) == high;
      LowestIsUnique(page.a, page.c, w, h, p.x, p.y);
      LowestIsUnique(page.a, page.c, w, h, r.x, r.y);
      assert false;
    }
    assert Within(low, page.width, page.height) && Within(high, page.width, page.height);
  }

  lemma SteepLeavesGap(m: Matrix, w: real, h: real)
    requires w > 0.0 && h > 0.0 && m.b != 0.0 && m.d != 0.0 && (m.a != 0.0 || m.c != 0.0)
    ensures !Fills(m, w, h)
  {
    var page := Place(m, w, h);
    SpreadIsPositive(page.b, page.d, w, h);
    SpreadIsPositive(page.a, page.c, w, h);
    var left, right := Point(0.0, 0.0), Point(page.width, 0.0);
    if Covered(m, w, h, left) && Covered(m, w, h, right) {
      var p :| Within(p, w, h) && OnPage(page, p) == left;
      var r :| Within(r, w, h) && OnPage(page, r) == right;
      LowestIsUnique(page.b, page.d, w, h, p.x, p.y);
      LowestIsUnique(page.b, page.d, w, h, r.x, r.y);
      assert false;
    }
    assert Within(left, page.width, page.height) && Within(right, page.width, page.height);
  }

  /** A quotient lies between 0 and s when what is divided lies between 0 and k s. */
  lemma QuotientWithin(k: real, s: real, v: real)
    requires k != 0.0 && s >= 0.0 && Min(0.0, k * s) <= v <= Max(0.0, k * s)
    ensures k * (v / k) == v && 0.0 <= v / k <= s
  {
    var t := v / k;
    assert k * t == v;
    SignOfProduct(k, s);
    SignOfProduct(k, t);
    SignOfProduct(k, s - t);
    assert k * (s - t) == k * s - v;
  }

  lemma SignOfProduct(k: real, t: real)
    requires k != 0.0
    ensures k > 0.0 ==> (k * t >= 0.0 <==> t >= 0.0)
    ensures k < 0.0 ==> (k * t <= 0.0 <==> t >= 0.0)
  {
    if k > 0.0 {
      PositiveProduct(k, t);
    } else {
      PositiveProduct(-k, t);
      assert k * t == -((-k) * t);
    }
  }

  lemma PositiveProduct(k: real, t: real)
    requires k > 0.0
    ensures k * t >= 0.0 <==> t >= 0.0
  {
    if t >= 0.0 {
      assert k * t >= 0.0;
    } else {
      assert k * -t > 0.0;
    }
  }

  /** Along one axis: the scaled interval is covered from end to end. */
  lemma AxisIsCovered(k: real, s: real, x: real) returns (t: real)
    requires k != 0.0 && s >= 0.0 && 0.0 <= x <= Max(0.0, k * s) - Min(0.0, k * s)
    ensures 0.0 <= t <= s && k * t - Min(0.0, k * s) == x
  {
    var v := x + Min(0.0, k * s);
    QuotientWithin(k, s, v);
    t := v / k;
  }

  lemma FlatForm(p: real, w: real, h: real, x: real, y: real)
    ensures Form(p, 0.0, x, y) == p * x && Form(0.0, p, x, y) == p * y
    ensures Lowest(p, 0.0, w, h) == Min(0.0, p * w) && Highest(p, 0.0, w, h) == Max(0.0, p * w)
    ensures Lowest(0.0, p, w, h) == Min(0.0, p * h) && Highest(0.0, p, w, h) == Max(0.0, p * h)
  {
  }

  /** Each page coordinate depends on one image coordinate only. */
  lemma UprightCovers(m: Matrix, w: real, h: real, q: Point)
    requires w >= 0.0 && h >= 0.0 && m.b == 0.0 && m.c == 0.0 && m.a != 0.0 && m.d != 0.0
    requires Within(q, Place(m, w, h).width, Place(m, w, h).height)
    ensures Covered(m, w, h, q)
  {
    var page := Place(m, w, h);
    assert page == Page(Highest(m.a, 0.0, w, h) - Lowest(m.a, 0.0, w, h),
                        Highest(0.0, m.d, w, h) - Lowest(0.0, m.d, w, h),
                        m.a, 0.0, 0.0, m.d, Negated(Lowest(m.a, 0.0, w, h)), Negated(Lowest(0.0, m.d, w, h)));
    FlatForm(m.a, w, h, 0.0, 0.0);
    FlatForm(m.d, w, h, 0.0, 0.0);
    var x := AxisIsCovered(m.a, w, q.x);
    var y := AxisIsCovered(m.d, h, q.y);
    FlatForm(m.a, w, h, x, y);
    FlatForm(m.d, w, h, x, y);
    var p := Point(x, y);
    assert OnPage(page, p).x == q.x && OnPage(page, p).y == q.y;
    assert Within(p, w, h) && OnPage(page, p) == q;
  }

  lemma SidewaysCovers(m: Matrix, w: real, h: real, q: Point)
    requires w >= 0.0 && h >= 0.0 && m.a == 0.0 && m.d == 0.0 && m.b != 0.0 && m.c != 0.0
    requires Within(q, Place(m, w, h).width, Place(m, w, h).height)
    ensures Covered(m, w, h, q)
  {
    var page := Place(m, w, h);
    var b, c := Negated(m.b), Negated(m.c);
    assert page == Page(Highest(0.0, c, w, h) - Lowest(0.0, c, w, h), Highest(b, 0.0, w, h) - Lowest(b, 0.0, w, h),
                        0.0, b, c, 0.0, Negated(Lowest(0.0, c, w, h)), Negated(Lowest(b, 0.0, w, h)));
    FlatForm(c, w, h, 0.0, 0.0);
    FlatForm(b, w, h, 0.0, 0.0);
    var y := AxisIsCovered(c, h, q.x);
    var x := AxisIsCovered(b, w, q.y);
    FlatForm(c, w, h, x, y);
    FlatForm(b, w, h, x, y);
    var p := Point(x, y);
    assert OnPage(page, p).x == q.x && OnPage(page, p).y == q.y;
    assert Within(p, w, h) && OnPage(page, p) == q;
  }

  lemma StraightCovers(m: Matrix, w: real, h: real, q: Point)
    requires w >= 0.0 && h >= 0.0 && Straight(m) && Determinant(m) != 0.0
    requires Within(q, Place(m, w, h).width, Place(m, w, h).height)
    ensures Covered(m, w, h, q)
  {
    if m.b == 0.0 && m.c == 0.0 {
      assert m.a != 0.0 && m.d != 0.0;
      UprightCovers(m, w, h, q);
    } else {
      assert m.b != 0.0 && m.c != 0.0;
      SidewaysCovers(m, w, h, q);
    }
  }

  /** An image of positive size under an invertible matrix fills its page if and only if the matrix has no shear. */
  lemma FillsExactlyWhenStraight(m: Matrix, w: real, h: real)
    requires w > 0.0 && h > 0.0 && Determinant(m) != 0.0
    ensures Fills(m, w, h) <==> Straight(m)
  {
    if Straight(m) {
      forall q | Within(q, Place(m, w, h).width, Place(m, w, h).height) ensures Covered(m, w, h, q) {
        StraightCovers(m, w, h, q);
      }
    } else if m.a != 0.0 && m.c != 0.0 {
      assert m.b != 0.0 || m.d != 0.0;
      SlantedLeavesGap(m, w, h);
    } else {
      assert m.b != 0.0 && m.d != 0.0;
      SteepLeavesGap(m, w, h);
    }
  }

  lemma FormDifference(p: real, q: real, x: real, y: real, x': real, y': real)
    ensures Form(p, q, x, y) - Form(p, q, x', y') == Form(p, q, x - x', y - y')
  {
    assert p * (x - x') == p * x - p * x' && q * (y - y') == q * y - q * y';
  }

  /** A homogeneous system with non-zero determinant has only the zero solution. */
  lemma OnlyZero(a: real, b: real, c: real, d: real, x: real, y: real)
    requires Form(a, c, x, y) == 0.0 && Form(b, d, x, y) == 0.0 && a * d - b * c != 0.0
    ensures x == 0.0 && y == 0.0
  {
    var t := c * y;
    assert a * x == -t;
    var u := d * y;
    assert b * x == -u;
    assert d * t == c * u by { assert d * (c * y) == c * (d * y); }
    assert d * (a * x) == (a * d) * x && c * (b * x) == (b * c) * x;
    assert d * (a * x) - c * (b * x) == -(d * t) + c * u;
    assert (a * d - b * c) * x == (a * d) * x - (b * c) * x == 0.0;
    assert x == 0.0;
    assert c * y == 0.0 && d * y == 0.0;
  }

  /** Two image points never share a page point when the matrix is invertible. */
  lemma PagePointsAreDistinct(m: Matrix, w: real, h: real, p: Point, r: Point)
    requires Determinant(m) != 0.0 && OnPage(Place(m, w, h), p) == OnPage(Place(m, w, h), r)
    ensures p == r
  {
    var page := Place(m, w, h);
    FormDifference(page.a, page.c, p.x, p.y, r.x, r.y);
    FormDifference(page.b, page.d, p.x, p.y, r.x, r.y);
    assert page.b * page.c == m.b * m.c by { assert (-m.b) * (-m.c) == m.b * m.c; }
    OnlyZero(page.a, page.b, page.c, page.d, p.x - r.x, p.y - r.y);
  }

  lemma SignedExtent(s: real, w: real, h: real)
    requires IsSign(s) && w >= 0.0 && h >= 0.0
    ensures Highest(s, 0.0, w, h) - Lowest(s, 0.0, w, h) == w
    ensures Highest(0.0, s, w, h) - Lowest(0.0, s, w, h) == h
  {
    FlatForm(s, w, h, 0.0, 0.0);
  }

  lemma SignedPageSize(m: Matrix, w: real, h: real)
    requires SignedPermutation(m) && w >= 0.0 && h >= 0.0
    ensures Place(m, w, h).width == if Sideways(m) then h else w
    ensures Place(m, w, h).height == if Sideways(m) then w else h
  {
    var page := Place(m, w, h);
    if Sideways(m) {
      assert page.a == 0.0 && page.d == 0.0;
      SignedExtent(page.c, w, h);
      SignedExtent(page.b, w, h);
    } else {
      assert page.b == 0.0 && page.c == 0.0;
      SignedExtent(page.a, w, h);
      SignedExtent(page.d, w, h);
    }
  }

  /**
   After any presses the page has the image's size, turned on its side after an odd number of rotations, and shows
   each point of the image exactly once, leaving nothing blank.
   */
  lemma PressedPageIsFilled(presses: seq<Press>, w: real, h: real)
    requires w > 0.0 && h > 0.0
    ensures var page := Place(After(presses), w, h);
            if Turns(presses) % 2 == 1 then page.width == h && page.height == w
            else page.width == w && page.height == h
    ensures Fills(After(presses), w, h)
    ensures forall p, r :: OnPage(Place(After(presses), w, h), p) == OnPage(Place(After(presses), w, h), r) ==> p == r
  {
    var m := After(presses);
    PressesKeepSignedPermutation(presses);
    FlipsIsNegativeDeterminant(m);
    SignedPageSize(m, w, h);
    SignedPageFills(m, w, h);
    forall p, r | OnPage(Place(m, w, h), p) == OnPage(Place(m, w, h), r) ensures p == r {
      PagePointsAreDistinct(m, w, h, p, r);
    }
  }

  lemma SignedPageFills(m: Matrix, w: real, h: real)
    requires SignedPermutation(m) && Determinant(m) != 0.0 && w > 0.0 && h > 0.0
    ensures Fills(m, w, h)
  {
    FillsExactlyWhenStraight(m, w, h);
  }
}
