/** The page widgets in place: items with page numbers of their own, and the container with its two orders. */
module ImageContainer {
  import opened Bytes
  import opened PagesModel
  import S = SessionModel

  /** `CImageItem` */
  class ImageItem {
    const path: seq<byte>
    var matrix: seq<byte>
    var pageNumber: nat

    constructor (path: seq<byte>, matrix: seq<byte>, pageNumber: nat)
      ensures this.path == path && this.matrix == matrix && this.pageNumber == pageNumber
    {
      this.path, this.matrix, this.pageNumber := path, matrix, pageNumber;
    }

    method SetPageNumber(pageNumber: nat)
      modifies this`pageNumber
      ensures this.pageNumber == pageNumber
    {
      this.pageNumber := pageNumber;
    }
  }

  /** `CImageItemContainer` with its `CImageItemManager`. */
  class ImageItemContainer {
    var layout: seq<ImageItem>
    var items: seq<ImageItem>

    constructor ()
      ensures View() == Doc([], [], map[])
    {
      layout, items := [], [];
    }

    ghost function View(): (doc: Doc<ImageItem>)
      reads this, items
    {
      Doc(layout, items, map x | x in items :: x.pageNumber)
    }

    /** A scanned page gets the next number. */
    method AddImage(path: seq<byte>, matrix: seq<byte>) returns (item: ImageItem)
      modifies this
      ensures fresh(item) && item.path == path && item.matrix == matrix && item.pageNumber == |old(items)| + 1
      ensures View() == Add(old(View()), item, |old(items)| + 1)
    {
      item := new ImageItem(path, matrix, |items| + 1);
      items := items + [item];
      layout := layout + [item];
    }

    /** A restored page keeps the number it was saved with. */
    method AddSerialized(r: S.Record) returns (item: ImageItem)
      modifies this
      ensures fresh(item) && item.path == r.path && item.matrix == r.matrix && item.pageNumber == r.page
      ensures View() == Add(old(View()), item, r.page)
    {
      item := new ImageItem(r.path, r.matrix, r.page);
      items := items + [item];
      layout := layout + [item];
    }

    /** The `for_each` of a removal. */
    static method Renumber(later: seq<ImageItem>)
      requires NoDuplicates(later)
      modifies later`pageNumber
      ensures forall x :: x in later ==> x.pageNumber == Decremented(old(x.pageNumber))
    {
      for i := 0 to |later|
        invariant forall j :: 0 <= j < i ==> later[j].pageNumber == Decremented(old(later[j].pageNumber))
        invariant forall j :: i <= j < |later| ==> later[j].pageNumber == old(later[j].pageNumber)
      {
        later[i].SetPageNumber(Decremented(later[i].pageNumber));
      }
    }

    method RenumberAfter(position: nat)
      requires NoDuplicates(items)
      modifies items`pageNumber
      ensures forall x :: x in items ==>
                x.pageNumber == if x in Drop(items, position) then Decremented(old(x.pageNumber)) else old(x.pageNumber)
    {
      var later := Drop(items, position);
      DropHasNoDuplicates(items, position);
      Renumber(later);
    }

    method RemoveImage(item: ImageItem)
      requires SameItems(View()) && item in items
      modifies this, items`pageNumber
      ensures View() == Remove(old(View()), item)
    {
      ghost var was := View();
      layout := Without(layout, item);
      RenumberAfter(item.pageNumber);
      assert forall x :: x in was.page ==> x.pageNumber == RenumberedPages(was, was.page[item])[x];
      WithoutIsRemoval(items, item);
      items := Without(items, item);
      RemoveIsRenumber(was, item);
      KeysAre(items, RenumberedPages(was, was.page[item]), item);
    }

    /** Forgetting one item leaves the other page numbers. */
    lemma KeysAre(items: seq<ImageItem>, page: map<ImageItem, nat>, item: ImageItem)
      requires Elements(items) == page.Keys - {item}
      requires forall x :: x in page ==> x.pageNumber == page[x]
      ensures (map x | x in items :: x.pageNumber) == page - {item}
    {
      forall x | x in items ensures x in page && x != item {
        assert x in Elements(items);
      }
      forall x | x in page && x != item ensures x in items {
        assert x in Elements(items);
      }
    }

    /** `usedNull` says that one of the two items the move looks up is not there; the source uses it all the same. */
    method MoveImage(item: ImageItem, direction: Direction) returns (usedNull: bool)
      requires SameItems(View()) && item in items
      modifies this`layout, items`pageNumber
      ensures usedNull == UsesNull(old(View()), item, direction)
      ensures View() == if usedNull then old(View()) else Move(old(View()), item, direction)
    {
      usedNull := false;
      var target := Target(item.pageNumber, direction, |layout|);
      if target == 0 {
        return;
      }
      if item.pageNumber > |layout| {
        return true;
      }
      MoveIsSwapPages(View(), item, direction);
      var pageIndex, swapWithPageIndex := item.pageNumber - 1, target - 1;
      if swapWithPageIndex > pageIndex {
        pageIndex, swapWithPageIndex := swapWithPageIndex, pageIndex;
      }
      SwapTo(swapWithPageIndex, pageIndex, Move(View(), item, direction));
    }

    method SwapTo(lo: nat, hi: nat, ghost expected: Doc<ImageItem>)
      requires SameItems(View()) && lo < |layout| && hi < |layout| && expected == SwapPages(View(), lo, hi)
      modifies this`layout, items`pageNumber
      ensures View() == expected
    {
      SwapAt(lo, hi);
    }

    /** The second half of `move_image`. */
    method SwapAt(lo: nat, hi: nat)
      requires SameItems(View()) && lo < |layout| && hi < |layout|
      modifies this`layout, items`pageNumber
      ensures View() == SwapPages(old(View()), lo, hi)
    {
      var lastItem, firstItem := layout[hi], layout[lo];
      assert lastItem in Elements(layout) && firstItem in Elements(layout);
      SwapNumbers(lastItem, firstItem);
      layout := InsertWidget(layout, lo, lastItem);
      layout := InsertWidget(layout, hi, firstItem);
    }

    method SwapNumbers(lastItem: ImageItem, firstItem: ImageItem)
      requires lastItem in items && firstItem in items
      modifies items`pageNumber
      ensures var was := old(View());
              View() == was.(page := was.page[lastItem := was.page[firstItem]][firstItem := was.page[lastItem]])
    {
      ghost var was := View();
      var page := lastItem.pageNumber;
      lastItem.SetPageNumber(firstItem.pageNumber);
      firstItem.SetPageNumber(page);
      SwappedPages(was.page, View().page, lastItem, firstItem);
    }
  }

  /** The page numbers once everything from a position of the manager on has been decremented. */
  ghost function RenumberedPages<T>(doc: Doc<T>, position: nat): map<T, nat> {
    map x | x in doc.page :: if x in Drop(doc.manager, position) then Decremented(doc.page[x]) else doc.page[x]
  }

  lemma RemoveIsRenumber<T>(doc: Doc<T>, x: T)
    requires SameItems(doc) && x in doc.page
    ensures Remove(doc, x).page == RenumberedPages(doc, doc.page[x]) - {x}
  {
  }

  /** Two page numbers exchanged, item by item. */
  lemma SwappedPages<T>(page: map<T, nat>, page': map<T, nat>, last: T, first: T)
    requires page'.Keys == page.Keys && last in page && first in page
    requires forall x :: x in page ==>
               page'[x] == if x == first then page[last] else if x == last then page[first] else page[x]
    ensures page' == page[last := page[first]][first := page[last]]
  {
  }

  lemma MoveIsSwapPages<T>(doc: Doc<T>, x: T, direction: Direction)
    requires x in doc.page && !UsesNull(doc, x, direction) && Target(doc.page[x], direction, |doc.layout|) != 0
    ensures var p := doc.page[x]; var t := Target(p, direction, |doc.layout|);
            && 1 <= p <= |doc.layout| && 1 <= t <= |doc.layout|
            && Move(doc, x, direction) ==
                 if p > t then SwapPages(doc, t - 1, p - 1) else SwapPages(doc, p - 1, t - 1)
  {
  }

  lemma DropHasNoDuplicates<T>(s: seq<T>, n: nat)
    requires NoDuplicates(s)
    ensures NoDuplicates(Drop(s, n)) && forall x :: x in Drop(s, n) ==> x in s
  {
  }
}
