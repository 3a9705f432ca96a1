/**
 `CImageItemContainer` on values: the layout order the user sees, the manager's insertion order, and the page
 number each item carries.  `T` stands for the items' identities.
 */
module PagesModel {
  import opened Bytes

  datatype Doc<T(==)> = Doc(layout: seq<T>, manager: seq<T>, page: map<T, nat>)

  datatype Direction = LEFT | RIGHT

  ghost predicate NoDuplicates<T>(s: seq<T>) {
    forall i, j :: 0 <= i < j < |s| ==> s[i] != s[j]
  }

  /** The items of a sequence, as a set. */
  ghost function Elements<T>(s: seq<T>): set<T> {
    set x | x in s
  }

  /** Both orders hold the same items, each once, and exactly these have page numbers. */
  ghost predicate SameItems<T>(doc: Doc<T>) {
    && NoDuplicates(doc.layout) && NoDuplicates(doc.manager)
    && Elements(doc.layout) == Elements(doc.manager) == doc.page.Keys
  }

  /** Pages are numbered 1, 2, 3, ... as displayed. */
  ghost predicate Numbered<T>(doc: Doc<T>) {
    && SameItems(doc)
    && forall i :: 0 <= i < |doc.layout| ==> doc.page[doc.layout[i]] == i + 1
  }

  /** The sequence without `x`. */
  function Without<T(==)>(s: seq<T>, x: T): seq<T> {
    if s == [] then [] else (if s[0] == x then [] else [s[0]]) + Without(s[1..], x)
  }

  function Add<T(==)>(doc: Doc<T>, x: T, page: nat): Doc<T> {
    Doc(doc.layout + [x], doc.manager + [x], doc.page[x := page])
  }

  function PageOf<T(==)>(doc: Doc<T>, x: T): nat {
    if x in doc.page then doc.page[x] else 0
  }

  /** A page number one less, in the source's unsigned arithmetic. */
  function Decremented(page: nat): nat {
    if page == 0 then WORD_LIMIT - 1 else page - 1
  }

  function Drop<T>(s: seq<T>, n: nat): seq<T> {
    if n <= |s| then s[n..] else []
  }

  /** Removal renumbers the items that come after position `page` in the manager's order. */
  function Remove<T(==)>(doc: Doc<T>, x: T): Doc<T>
    requires x in doc.page
  {
    var later := Drop(doc.manager, doc.page[x]);
    Doc(Without(doc.layout, x), Without(doc.manager, x),
        map y | y in doc.page && y != x :: if y in later then Decremented(doc.page[y]) else doc.page[y])
  }

  /** `insertWidget` of a widget that is in the layout already. */
  function InsertWidget<T(==)>(s: seq<T>, at: nat, x: T): seq<T>
  {
    var rest := Without(s, x);
    if at <= |rest| then rest[..at] + [x] + rest[at..] else rest + [x]
  }

  /** The page a move exchanges with, or 0 when the move does nothing. */
  function Target(page: nat, direction: Direction, count: nat): nat {
    var target := if direction == LEFT then page - 1 else if page + 1 < WORD_LIMIT then page + 1 else 0;
    if page == 0 || target > count then 0 else target
  }

  /** The move would ask the layout for an item it does not have, and use the null it gets. */
  predicate UsesNull<T(==)>(doc: Doc<T>, x: T, direction: Direction)
    requires x in doc.page
  {
    Target(doc.page[x], direction, |doc.layout|) != 0 && doc.page[x] > |doc.layout|
  }

  /** The items at two layout positions exchange page numbers, then both are inserted anew. */
  function SwapPages<T(==)>(doc: Doc<T>, lo: nat, hi: nat): Doc<T>
    requires lo < |doc.layout| && hi < |doc.layout|
  {
    var last, first := doc.layout[hi], doc.layout[lo];
    Doc(InsertWidget(InsertWidget(doc.layout, lo, last), hi, first), doc.manager,
        doc.page[last := PageOf(doc, first)][first := PageOf(doc, last)])
  }

  function Move<T(==)>(doc: Doc<T>, x: T, direction: Direction): Doc<T>
    requires x in doc.page && !UsesNull(doc, x, direction)
  {
    var page := doc.page[x];
    var target := Target(page, direction, |doc.layout|);
    if target == 0 then doc else
    if page > target then SwapPages(doc, target - 1, page - 1) else SwapPages(doc, page - 1, target - 1)
  }

  // ---- Removing from a sequence ----

  lemma {:induction false} WithoutAbsent<T>(s: seq<T>, x: T)
    requires x !in s
    ensures Without(s, x) == s
  {
    if s != [] {
      WithoutAbsent(s[1..], x);
    }
  }

  lemma RestAt<T>(s: seq<T>, k: nat)
    requires NoDuplicates(s) && 0 < k < |s|
    ensures NoDuplicates(s[1..]) && s[1..][k - 1] == s[k] && s[0] != s[k]
    ensures s[..k] == [s[0]] + s[1..][..k - 1] && s[1..][k..] == s[k + 1..]
  {
  }

  lemma {:induction false} WithoutAt<T>(s: seq<T>, k: nat)
    requires NoDuplicates(s) && k < |s|
    ensures Without(s, s[k]) == s[..k] + s[k + 1..]
  {
    if k == 0 {
      WithoutAbsent(s[1..], s[0]);
    } else {
      RestAt(s, k);
      WithoutAt(s[1..], k - 1);
    }
  }

  lemma IndexOf<T>(s: seq<T>, x: T) returns (k: nat)
    requires x in s
    ensures k < |s| && s[k] == x
  {
    k :| 0 <= k < |s| && s[k] == x;
  }

  lemma WithoutIsRemoval<T>(s: seq<T>, x: T)
    requires NoDuplicates(s) && x in s
    ensures NoDuplicates(Without(s, x)) && |Without(s, x)| == |s| - 1
    ensures Elements(Without(s, x)) == Elements(s) - {x}
  {
    var k := IndexOf(s, x);
    WithoutAt(s, k);
    forall y | y in s && y != x ensures y in Without(s, x) {
      var j := IndexOf(s, y);
      assert y == if j < k then Without(s, x)[j] else Without(s, x)[j - 1];
    }
  }

  lemma {:induction false} SizeOfElements<T>(s: seq<T>)
    requires NoDuplicates(s)
    ensures |Elements(s)| == |s|
  {
    if s != [] {
      SizeOfElements(s[1..]);
      assert Elements(s) == {s[0]} + Elements(s[1..]);
      assert s[0] !in s[1..];
    }
  }

  lemma SubsetOfSameSize<T>(a: set<T>, b: set<T>)
    requires a <= b && |a| == |b|
    ensures a == b
  {
    assert b == a + (b - a);
  }

  // ---- What every operation keeps ----

  lemma OrdersHaveSameSize<T>(doc: Doc<T>)
    requires SameItems(doc)
    ensures |doc.layout| == |doc.manager|
  {
    SizeOfElements(doc.layout);
    SizeOfElements(doc.manager);
  }

  /** A new item joins the end of both orders; the numbering goes on exactly if it gets the next number. */
  lemma AddKeeps<T>(doc: Doc<T>, x: T, page: nat)
    requires SameItems(doc) && x !in doc.manager
    ensures SameItems(Add(doc, x, page))
    ensures Numbered(doc) ==> (Numbered(Add(doc, x, page)) <==> page == |doc.manager| + 1)
  {
    OrdersHaveSameSize(doc);
    var doc' := Add(doc, x, page);
    assert x !in Elements(doc.layout);
    assert Elements(doc'.layout) == Elements(doc.layout) + {x};
    assert Elements(doc'.manager) == Elements(doc.manager) + {x};
    assert doc'.layout[|doc.layout|] == x;
    forall i | 0 <= i < |doc.layout| ensures doc'.page[doc'.layout[i]] == doc.page[doc.layout[i]] {
      assert doc.layout[i] in doc.layout;
    }
  }

  lemma RemoveKeepsItems<T>(doc: Doc<T>, x: T)
    requires SameItems(doc) && x in doc.page
    ensures SameItems(Remove(doc, x)) && Elements(Remove(doc, x).layout) == Elements(doc.layout) - {x}
  {
    assert x in Elements(doc.layout) && x in Elements(doc.manager);
    WithoutIsRemoval(doc.layout, x);
    WithoutIsRemoval(doc.manager, x);
  }

  /**
   Removal of an item numbered p, whatever the numbers are: it leaves both orders, which otherwise stay as they are,
   and exactly the items from the manager's position p on get a number one less, modulo 2^64.
   */
  lemma RemoveExactly<T>(doc: Doc<T>, x: T, l: nat, m: nat)
    requires SameItems(doc) && l < |doc.layout| && m < |doc.manager| && doc.layout[l] == doc.manager[m] == x
    requires x in doc.page
    ensures Remove(doc, x).layout == doc.layout[..l] + doc.layout[l + 1..]
    ensures Remove(doc, x).manager == doc.manager[..m] + doc.manager[m + 1..]
    ensures forall i :: 0 <= i < |doc.manager| && i != m ==> RemovedPage(doc, x, i)
  {
    WithoutAt(doc.layout, l);
    WithoutAt(doc.manager, m);
    forall i | 0 <= i < |doc.manager| && i != m ensures RemovedPage(doc, x, i) {
      assert doc.manager[i] in Elements(doc.manager);
      if doc.page[x] <= |doc.manager| {
        Halves(doc.manager, doc.page[x]);
      }
    }
  }

  /** The page number of the manager's item `i`, which stays, once `x` is removed. */
  ghost predicate RemovedPage<T>(doc: Doc<T>, x: T, i: nat)
    requires x in doc.page && i < |doc.manager|
  {
    var y := doc.manager[i];
    && y in doc.page && y in Remove(doc, x).page
    && Remove(doc, x).page[y] ==
         if i < doc.page[x] then doc.page[y]
         else if doc.page[y] == 0 then 0xFFFF_FFFF_FFFF_FFFF else doc.page[y] - 1
  }

  /** The first `n` items of both orders are the same set. */
  ghost predicate PrefixesAgree<T>(doc: Doc<T>, n: nat) {
    n <= |doc.layout| && n <= |doc.manager| && Elements(doc.layout[..n]) == Elements(doc.manager[..n])
  }

  lemma Halves<T>(s: seq<T>, n: nat)
    requires NoDuplicates(s) && n <= |s|
    ensures Elements(s[n..]) == Elements(s) - Elements(s[..n])
    ensures Elements(s[..n]) == Elements(s) - Elements(s[n..])
    ensures forall i :: 0 <= i < |s| ==> (i >= n <==> s[i] in Elements(s[n..]))
  {
    assert s == s[..n] + s[n..];
    forall i | n <= i < |s| ensures s[i] in s[n..] {
      assert s[n..][i - n] == s[i];
    }
  }

  lemma Complements<T>(all: set<T>, a: set<T>, a': set<T>, b: set<T>, b': set<T>)
    requires a == all - a' && a' == all - a && b == all - b' && b' == all - b
    ensures a == b <==> a' == b'
  {
  }

  /** Of two halves of the same size, one inside the other is the other. */
  lemma TailsOfSameSize<T>(a: seq<T>, b: seq<T>)
    requires NoDuplicates(a) && NoDuplicates(b) && |a| == |b| && Elements(a) <= Elements(b)
    ensures Elements(a) == Elements(b)
  {
    SizeOfElements(a);
    SizeOfElements(b);
    SubsetOfSameSize(Elements(a), Elements(b));
  }

  lemma HalvesAgree<T>(doc: Doc<T>, n: nat)
    requires SameItems(doc) && n <= |doc.layout|
    ensures PrefixesAgree(doc, n) <==> Elements(doc.layout[n..]) == Elements(Drop(doc.manager, n))
    ensures PrefixesAgree(doc, n) <==> Elements(doc.layout[n..]) <= Elements(Drop(doc.manager, n))
  {
    OrdersHaveSameSize(doc);
    var l, m := doc.layout[n..], doc.manager[n..];
    var l0, m0 := Elements(doc.layout[..n]), Elements(doc.manager[..n]);
    assert l0 == m0 <==> Elements(l) == Elements(m) by {
      Halves(doc.layout, n);
      Halves(doc.manager, n);
      Complements(Elements(doc.layout), l0, Elements(l), m0, Elements(m));
    }
    if Elements(l) <= Elements(m) {
      TailsOfSameSize(l, m);
    }
  }

  /**
   The item displayed at position `i` comes after position k + 1 of the manager, so removing page k + 1 renumbers it.
   */
  ghost predicate Late<T>(doc: Doc<T>, k: nat, i: nat)
    requires i < |doc.layout|
  {
    doc.layout[i] in Elements(Drop(doc.manager, k + 1))
  }

  /** `doc'` displays what `doc` does without position `k`, and is numbered right where later items are renumbered. */
  ghost predicate Closed<T>(doc: Doc<T>, doc': Doc<T>, k: nat) {
    && k < |doc.layout| && SameItems(doc') && |doc'.layout| == |doc.layout| - 1
    && forall i :: 0 <= i < |doc.layout| && i != k ==>
         var j := if i < k then i else i - 1;
         && doc'.layout[j] == doc.layout[i] && doc.layout[i] in doc'.page
         && (doc'.page[doc.layout[i]] == j + 1 <==> (i > k <==> Late(doc, k, i)))
  }

  lemma RemoveShifts<T>(doc: Doc<T>, k: nat, doc': Doc<T>, i: nat)
    requires Numbered(doc) && k < |doc.layout| && i < |doc.layout| && i != k
    requires doc.layout[k] in doc.page && doc' == Remove(doc, doc.layout[k])
    requires doc'.layout == doc.layout[..k] + doc.layout[k + 1..]
    ensures var j := if i < k then i else i - 1;
            && doc'.layout[j] == doc.layout[i] && doc.layout[i] in doc'.page
            && (doc'.page[doc.layout[i]] == j + 1 <==> (i > k <==> Late(doc, k, i)))
  {
    assert doc.layout[i] in Elements(doc.layout);
  }

  lemma RemoveCloses<T>(doc: Doc<T>, k: nat)
    requires Numbered(doc) && k < |doc.layout|
    ensures Closed(doc, Remove(doc, doc.layout[k]), k)
  {
    assert doc.layout[k] in Elements(doc.layout);
    RemoveKeepsItems(doc, doc.layout[k]);
    WithoutAt(doc.layout, k);
    var doc' := Remove(doc, doc.layout[k]);
    forall i | 0 <= i < |doc.layout| && i != k
      ensures var j := if i < k then i else i - 1;
              && doc'.layout[j] == doc.layout[i] && doc.layout[i] in doc'.page
              && (doc'.page[doc.layout[i]] == j + 1 <==> (i > k <==> Late(doc, k, i)))
    {
      RemoveShifts(doc, k, doc', i);
    }
  }

  ghost predicate LateExactlyAfter<T>(doc: Doc<T>, k: nat) {
    forall i :: 0 <= i < |doc.layout| && i != k ==> (i > k <==> Late(doc, k, i))
  }

  lemma ClosedIsNumbered<T>(doc: Doc<T>, doc': Doc<T>, k: nat)
    requires Closed(doc, doc', k)
    ensures Numbered(doc') <==> LateExactlyAfter(doc, k)
  {
    if Numbered(doc') {
      forall i | 0 <= i < |doc.layout| && i != k ensures i > k <==> Late(doc, k, i) {
        var j := if i < k then i else i - 1;
        assert doc'.page[doc'.layout[j]] == j + 1;
      }
    }
    if LateExactlyAfter(doc, k) {
      forall j | 0 <= j < |doc'.layout| ensures doc'.page[doc'.layout[j]] == j + 1 {
        var i := if j < k then j else j + 1;
        assert i > k <==> Late(doc, k, i);
      }
    }
  }

  lemma LateMeansPrefixesAgree<T>(doc: Doc<T>, k: nat)
    requires SameItems(doc) && k < |doc.layout|
    ensures LateExactlyAfter(doc, k) <==> PrefixesAgree(doc, k + 1)
  {
    HalvesAgree(doc, k + 1);
    Halves(doc.layout, k + 1);
    if LateExactlyAfter(doc, k) {
      var shown, later := Elements(doc.layout[k + 1..]), Elements(Drop(doc.manager, k + 1));
      forall y | y in shown ensures y in later {
        var j := IndexOf(doc.layout[k + 1..], y);
        assert doc.layout[k + 1 + j] == y;
        assert Late(doc, k, k + 1 + j);
      }
    }
  }

  /**
   Removing the page numbered p from a numbered document leaves it numbered if and only if the first p items of
   the manager are, as a set, the first p pages displayed.
   */
  lemma RemoveKeepsNumbers<T>(doc: Doc<T>, x: T)
    requires Numbered(doc) && x in doc.page
    ensures Numbered(Remove(doc, x)) <==> PrefixesAgree(doc, doc.page[x])
  {
    assert x in Elements(doc.layout);
    var k := IndexOf(doc.layout, x);
    RemoveCloses(doc, k);
    ClosedIsNumbered(doc, Remove(doc, x), k);
    LateMeansPrefixesAgree(doc, k);
  }
}
