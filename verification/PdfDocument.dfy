/** `CPdf` itself: pages are appended, sized from the image's transformed corners, and drawn on. */
module PdfDocument {
  import opened Bytes
  import opened Transforms
  import opened PdfModel

  /** A page as created, or with the image drawn. */
  datatype Sheet = Blank | Drawn(page: Page)

  datatype Image = Image(width: real, height: real)

  /** `std::min_element`, dereferenced */
  method MinElement(xs: array<real>) returns (least: real)
    requires xs.Length > 0
    ensures least in xs[..] && forall i :: 0 <= i < xs.Length ==> least <= xs[i]
  {
    least := xs[0];
    for i := 1 to xs.Length
      invariant least in xs[..] && forall j :: 0 <= j < i ==> least <= xs[j]
    {
      if xs[i] < least {
        least := xs[i];
      }
    }
  }

  /** `std::max_element`, dereferenced */
  method MaxElement(xs: array<real>) returns (greatest: real)
    requires xs.Length > 0
    ensures greatest in xs[..] && forall i :: 0 <= i < xs.Length ==> xs[i] <= greatest
  {
    greatest := xs[0];
    for i := 1 to xs.Length
      invariant greatest in xs[..] && forall j :: 0 <= j < i ==> xs[j] <= greatest
    {
      if greatest < xs[i] {
        greatest := xs[i];
      }
    }
  }

  /** The extremes of a linear form over the four corners of the image. */
  method Extremes(p: real, q: real, w: real, h: real) returns (least: real, greatest: real)
    ensures least == Lowest(p, q, w, h) && greatest == Highest(p, q, w, h)
  {
    var corners := new real[4];
    corners[0], corners[1] := Form(p, q, 0.0, 0.0), Form(p, q, w, 0.0);
    corners[2], corners[3] := Form(p, q, 0.0, h), Form(p, q, w, h);
    least := MinElement(corners);
    greatest := MaxElement(corners);
    assert corners[..] == [0.0, p * w, q * h, p * w + q * h];
    ExtremesOfFour(p * w, q * h, corners[..], least, greatest);
  }

  lemma ExtremesOfFour(s: real, t: real, xs: seq<real>, least: real, greatest: real)
    requires xs == [0.0, s, t, s + t] && least in xs && greatest in xs
    requires forall i :: 0 <= i < |xs| ==> least <= xs[i] <= greatest
    ensures least == Min(Min(0.0, s), Min(t, s + t)) && greatest == Max(Max(0.0, s), Max(t, s + t))
  {
    assert xs[0] == 0.0 && xs[1] == s && xs[2] == t && xs[3] == s + t;
  }

  /** The page shows the image as the preview under this matrix does, in size and point by point. */
  ghost predicate ShowsPreview(page: Page, m: Matrix, image: Image) {
    && page.width == PreviewWidth(m, image.width, image.height)
    && page.height == PreviewHeight(m, image.width, image.height)
    && forall pixel :: Seen(page, image.height, pixel) == Preview(m, image.width, image.height, pixel)
  }

  /** The page has the image's size and shows it as it is. */
  ghost predicate ShowsPlain(page: Page, image: Image) {
    page.width == image.width && page.height == image.height && forall p :: OnPage(page, p) == p
  }

  lemma PlacedShowsPreview(m: Matrix, image: Image)
    ensures ShowsPreview(Place(m, image.width, image.height), m, image)
  {
    forall pixel ensures Seen(Place(m, image.width, image.height), image.height, pixel) ==
                         Preview(m, image.width, image.height, pixel)
    {
      PageShowsPreview(m, image.width, image.height, pixel);
    }
    PageShowsPreview(m, image.width, image.height, Point(0.0, 0.0));
  }

  lemma PlainShowsPlain(image: Image)
    ensures ShowsPlain(Plain(image.width, image.height), image)
  {
  }

  class CPdf {
    var sheets: seq<Sheet>

    constructor ()
      ensures sheets == []
    {
      sheets := [];
    }

    /** `pageCreated` is whether libharu could create a page; an image that did not load leaves a blank one. */
    method AddImage(pageCreated: bool, image: Option<Image>, matrix: Option<Matrix>) returns (ok: bool)
      modifies this
      ensures !pageCreated ==> sheets == old(sheets)
      ensures pageCreated ==> |sheets| == |old(sheets)| + 1 && sheets[..|old(sheets)|] == old(sheets)
      ensures pageCreated && image.None? ==> sheets[|old(sheets)|] == Blank
      ensures pageCreated && image.Some? ==> sheets[|old(sheets)|].Drawn?
      ensures pageCreated && image.Some? && matrix.Some? ==>
                ShowsPreview(sheets[|old(sheets)|].page, matrix.value, image.value)
      ensures pageCreated && image.Some? && matrix.None? ==> ShowsPlain(sheets[|old(sheets)|].page, image.value)
      ensures ok == (pageCreated && image.Some?)
    {
      if !pageCreated {
        return false;
      }
      sheets := sheets + [Blank];
      if image.None? {
        return false;
      }
      var w, h := image.value.width, image.value.height;
      var page := Plain(w, h);
      if matrix.Some? {
        var a, b, c, d := matrix.value.a, Negated(matrix.value.b), Negated(matrix.value.c), matrix.value.d;
        var minX, maxX := Extremes(a, c, w, h);
        var minY, maxY := Extremes(b, d, w, h);
        page := Page(maxX - minX, maxY - minY, a, b, c, d, Negated(minX), Negated(minY));
        assert page == Place(matrix.value, w, h);
        PlacedShowsPreview(matrix.value, image.value);
      } else {
        PlainShowsPlain(image.value);
      }
      sheets := sheets[|sheets| - 1 := Drawn(page)];
      return true;
    }
  }
}
