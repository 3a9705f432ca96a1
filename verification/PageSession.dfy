/** Saving a document to the session file and restoring it: what comes back is what was displayed. */
module PageSession {
  import opened Bytes
  import opened SessionModel
  import opened PagesModel
  import opened PageRuns

  /** What a page shows: its transform, as opaque words, and the path of its image. */
  datatype Look = Look(matrix: seq<byte>, path: seq<byte>)

  predicate AllPaged<T(==)>(items: seq<T>, page: map<T, nat>, look: map<T, Look>) {
    forall i :: 0 <= i < |items| ==> items[i] in page && items[i] in look
  }

  /** The records of some items, in the order given. */
  function Records<T(==)>(items: seq<T>, page: map<T, nat>, look: map<T, Look>): (rs: seq<Record>)
    requires AllPaged(items, page, look)
    ensures |rs| == |items|
    ensures forall i :: 0 <= i < |items| ==> rs[i] == RecordOf(items[i], page, look)
  {
    seq(|items|, i requires 0 <= i < |items| => RecordOf(items[i], page, look))
  }

  function RecordOf<T(==)>(x: T, page: map<T, nat>, look: map<T, Look>): Record
    requires x in page && x in look
  {
    Record(look[x].matrix, page[x], look[x].path)
  }

  // ---- Sorting by page number ----

  predicate Ascending(rs: seq<Record>) {
    forall i, j :: 0 <= i < j < |rs| ==> rs[i].page <= rs[j].page
  }

  predicate StrictlyAscending(rs: seq<Record>) {
    forall i, j :: 0 <= i < j < |rs| ==> rs[i].page < rs[j].page
  }

  /** What `std::sort` may return: it is not stable, so equal keys may come in any order. */
  ghost predicate IsSortOf(sorted: seq<Record>, rs: seq<Record>) {
    Ascending(sorted) && multiset(sorted) == multiset(rs)
  }

  /** Records with the same page number are the same record. */
  predicate TiesAreEqual(rs: seq<Record>) {
    forall i, j :: 0 <= i < j < |rs| && rs[i].page == rs[j].page ==> rs[i] == rs[j]
  }

  lemma SameFirst(a: seq<Record>, b: seq<Record>)
    requires Ascending(a) && TiesAreEqual(a) && Ascending(b) && multiset(a) == multiset(b) && a != [] && b != []
    ensures a[0] == b[0]
  {
    assert a[0] in multiset(b) && b[0] in multiset(a);
    var i :| 0 <= i < |b| && b[i] == a[0];
    var j :| 0 <= j < |a| && a[j] == b[0];
    assert a[0].page <= a[j].page && b[0].page <= b[i].page;
  }

  lemma RestOf(a: seq<Record>, first: Record)
    requires a != [] && a[0] == first
    ensures multiset(a[1..]) == multiset(a) - multiset{first}
  {
    assert a == [a[0]] + a[1..];
  }

  lemma RestKeepsOrder(rs: seq<Record>)
    requires Ascending(rs) && rs != []
    ensures Ascending(rs[1..]) && (TiesAreEqual(rs) ==> TiesAreEqual(rs[1..]))
  {
  }

  lemma SameLength(a: seq<Record>, b: seq<Record>)
    requires multiset(a) == multiset(b)
    ensures |a| == |b|
  {
    assert |a| == |multiset(a)| && |b| == |multiset(b)|;
  }

  lemma SortTails(a: seq<Record>, b: seq<Record>)
    requires Ascending(a) && TiesAreEqual(a) && Ascending(b) && multiset(a) == multiset(b) && a != []
    ensures b != [] && a[0] == b[0] && multiset(a[1..]) == multiset(b[1..])
    ensures Ascending(a[1..]) && TiesAreEqual(a[1..]) && Ascending(b[1..])
  {
    SameLength(a, b);
    SameFirst(a, b);
    RestOf(a, a[0]);
    RestOf(b, a[0]);
    RestKeepsOrder(a);
    RestKeepsOrder(b);
  }

  lemma SameTails(a: seq<Record>, b: seq<Record>)
    requires a != [] && b != [] && a[0] == b[0] && a[1..] == b[1..]
    ensures a == b
  {
    assert a == [a[0]] + a[1..] && b == [b[0]] + b[1..];
  }

  lemma {:induction false} SortIsUnique(a: seq<Record>, b: seq<Record>)
    requires Ascending(a) && TiesAreEqual(a) && Ascending(b) && multiset(a) == multiset(b)
    ensures a == b
  {
    if a == [] {
      SameLength(a, b);
    } else {
      SortTails(a, b);
      SortIsUnique(a[1..], b[1..]);
      SameTails(a, b);
    }
  }

  lemma StrictSortIsUnique(a: seq<Record>, b: seq<Record>)
    requires StrictlyAscending(a) && Ascending(b) && multiset(a) == multiset(b)
    ensures a == b
  {
    SortIsUnique(a, b);
  }

  lemma InsertionKeepsOrder(sorted: seq<Record>, r: Record, at: nat)
    requires Ascending(sorted) && at <= |sorted|
    requires forall j :: 0 <= j < at ==> sorted[j].page < r.page
    requires at < |sorted| ==> r.page <= sorted[at].page
    ensures var more := sorted[..at] + [r] + sorted[at..];
            Ascending(more) && multiset(more) == multiset(sorted) + multiset{r}
  {
    SlicesAscend(sorted, r, at);
    InsertionAscends(sorted[..at], r, sorted[at..]);
    InsertionAddsOne(sorted[..at], r, sorted[at..]);
    assert sorted == sorted[..at] + sorted[at..];
  }

  lemma InsertionAddsOne(before: seq<Record>, r: Record, after: seq<Record>)
    ensures multiset(before + [r] + after) == multiset(before + after) + multiset{r}
  {
  }

  lemma SlicesAscend(sorted: seq<Record>, r: Record, at: nat)
    requires Ascending(sorted) && at <= |sorted|
    requires forall j :: 0 <= j < at ==> sorted[j].page < r.page
    requires at < |sorted| ==> r.page <= sorted[at].page
    ensures Ascending(sorted[..at]) && Ascending(sorted[at..])
    ensures forall i :: 0 <= i < at ==> sorted[..at][i].page <= r.page
    ensures forall j :: 0 <= j < |sorted| - at ==> r.page <= sorted[at..][j].page
  {
  }

  lemma InsertionAscends(before: seq<Record>, r: Record, after: seq<Record>)
    requires Ascending(before) && Ascending(after)
    requires forall i :: 0 <= i < |before| ==> before[i].page <= r.page
    requires forall j :: 0 <= j < |after| ==> r.page <= after[j].page
    ensures Ascending(before + [r] + after)
  {
    var more := before + [r] + after;
    forall k | 0 <= k < |more| ensures if k <= |before| then more[k].page <= r.page else r.page <= more[k].page {
    }
    forall i, j | 0 <= i < j < |more| ensures more[i].page <= more[j].page {
      if j < |before| {
        assert more[i] == before[i] && more[j] == before[j];
      } else if i > |before| {
        assert more[i] == after[i - |before| - 1] && more[j] == after[j - |before| - 1];
      }
    }
  }

  /** How many records of an ascending list come before a page number. */
  function Position(sorted: seq<Record>, page: nat): (at: nat)
    requires Ascending(sorted)
    ensures at <= |sorted| && (at < |sorted| ==> page <= sorted[at].page)
    ensures forall j :: 0 <= j < at ==> sorted[j].page < page
  {
    if sorted == [] || page <= sorted[0].page then 0 else 1 + Position(sorted[1..], page)
  }

  lemma {:induction false} SortExists(rs: seq<Record>) returns (sorted: seq<Record>)
    ensures IsSortOf(sorted, rs)
  {
    if rs == [] {
      sorted := [];
    } else {
      var rest := SortExists(rs[1..]);
      var at := Position(rest, rs[0].page);
      InsertionKeepsOrder(rest, rs[0], at);
      RestOf(rs, rs[0]);
      sorted := rest[..at] + [rs[0]] + rest[at..];
    }
  }

  lemma TiesCanSwap(rs: seq<Record>, i: nat, j: nat)
    requires Ascending(rs) && i < j < |rs| && rs[i].page == rs[j].page
    ensures IsSortOf(rs[i := rs[j]][j := rs[i]], rs)
  {
    var swapped := rs[i := rs[j]][j := rs[i]];
    assert forall k :: 0 <= k < |rs| ==> swapped[k].page == rs[k].page;
  }

  /** Whichever sort is used, it yields the list wanted: true exactly when that is ascending and ties do not matter. */
  lemma EverySortYields(wanted: seq<Record>, rs: seq<Record>)
    requires multiset(wanted) == multiset(rs)
    ensures (forall sorted :: IsSortOf(sorted, rs) ==> sorted == wanted) <==> Ascending(wanted) && TiesAreEqual(wanted)
  {
    if Ascending(wanted) && TiesAreEqual(wanted) {
      forall sorted | IsSortOf(sorted, rs) ensures sorted == wanted {
        SortIsUnique(wanted, sorted);
      }
    }
    if forall sorted :: IsSortOf(sorted, rs) ==> sorted == wanted {
      var some := SortExists(rs);
      forall i, j | 0 <= i < j < |wanted| && wanted[i].page == wanted[j].page ensures wanted[i] == wanted[j] {
        TiesCanSwap(wanted, i, j);
        assert IsSortOf(wanted[i := wanted[j]][j := wanted[i]], rs);
      }
    }
  }

  lemma {:induction false} SizeOfSplit(xs: seq<Record>, ys: seq<Record>)
    ensures TotalSize(xs + ys) == TotalSize(xs) + TotalSize(ys)
  {
    if xs == [] {
      assert xs + ys == ys;
    } else {
      SizeOfSplit(xs[1..], ys);
      assert (xs + ys)[1..] == xs[1..] + ys;
    }
  }

  lemma SizeWithout(left: seq<Record>, r: Record, right: seq<Record>)
    ensures TotalSize(left + ([r] + right)) == Size(r) + TotalSize(left + right)
  {
    SizeOfSplit(left, right);
    SizeOfSplit(left, [r] + right);
    assert ([r] + right)[1..] == right;
  }

  lemma SplitAt(rs: seq<Record>, k: nat) returns (left: seq<Record>, right: seq<Record>)
    requires k < |rs|
    ensures rs == left + ([rs[k]] + right) && |left + right| < |rs|
    ensures multiset(left + right) == multiset(rs) - multiset{rs[k]}
  {
    left, right := rs[..k], rs[k + 1..];
    assert rs == left + ([rs[k]] + right);
  }

  lemma {:induction false} SizeOfPermutation(a: seq<Record>, b: seq<Record>)
    requires multiset(a) == multiset(b)
    ensures TotalSize(a) == TotalSize(b)
    decreases |a|
  {
    assert |a| == |multiset(a)| && |b| == |multiset(b)|;
    if a != [] {
      assert a[0] in multiset(b);
      var k :| 0 <= k < |b| && b[k] == a[0];
      var left, right := SplitAt(b, k);
      var first, others := SplitAt(a, 0);
      SizeWithout(left, b[k], right);
      SizeWithout(first, a[0], others);
      SizeOfPermutation(first + others, left + right);
    }
  }

  /** A restored session can be saved again with the pages already there, if there is memory for both. */
  lemma RestoredFits(pages: seq<Record>, base: nat, data: seq<byte>, sorted: seq<Record>, k: nat)
    requires AllStorable(pages) && InMemory(base, data) && TotalSize(pages) + |data| < WORD_LIMIT
    requires Parse(base, data).Parsed? && IsSortOf(sorted, Parse(base, data).records) && k <= |sorted|
    ensures Fits(pages + sorted[..k])
  {
    ParsedFits(base, data);
    SizeOfPermutation(sorted, Parse(base, data).records);
    forall i | 0 <= i < |sorted| ensures Storable(sorted[i]) {
      assert sorted[i] in multiset(sorted);
    }
    PrefixFits(pages, sorted, k);
  }

  /** The pages fit, and go on fitting as the records are added one after another. */
  predicate FitThroughout(pages: seq<Record>, rs: seq<Record>) {
    forall k :: 0 <= k < |rs| ==> Fits(pages + rs[..k] + [rs[k]])
  }

  lemma RestoredFitThroughout(pages: seq<Record>, base: nat, data: seq<byte>, sorted: seq<Record>)
    requires AllStorable(pages) && InMemory(base, data) && TotalSize(pages) + |data| < WORD_LIMIT
    requires Parse(base, data).Parsed? && IsSortOf(sorted, Parse(base, data).records)
    ensures FitThroughout(pages, sorted)
  {
    forall k | 0 <= k < |sorted| ensures Fits(pages + sorted[..k] + [sorted[k]]) {
      RestoredFits(pages, base, data, sorted, k + 1);
      assert pages + sorted[..k + 1] == pages + sorted[..k] + [sorted[k]];
    }
  }

  lemma SizeOfPrefix(pages: seq<Record>, more: seq<Record>, k: nat)
    requires k <= |more|
    ensures TotalSize(pages + more[..k]) <= TotalSize(pages) + TotalSize(more)
  {
    SizeOfSplit(pages, more[..k]);
    SizeOfSplit(more[..k], more[k..]);
    assert more == more[..k] + more[k..];
  }

  lemma PrefixFits(pages: seq<Record>, more: seq<Record>, k: nat)
    requires AllStorable(pages) && AllStorable(more) && TotalSize(pages) + TotalSize(more) < WORD_LIMIT && k <= |more|
    ensures Fits(pages + more[..k])
  {
    SizeOfPrefix(pages, more, k);
    EncodedSize(pages + more[..k]);
  }

  /** Taking one item out of a list takes one record out of its records. */
  lemma RecordsWithout<T>(items: seq<T>, k: nat, page: map<T, nat>, look: map<T, Look>)
    requires AllPaged(items, page, look) && k < |items|
    ensures AllPaged(items[..k] + items[k + 1..], page, look)
    ensures multiset(Records(items, page, look)) ==
            multiset(Records(items[..k] + items[k + 1..], page, look)) + multiset{RecordOf(items[k], page, look)}
  {
    var rs := Records(items, page, look);
    assert rs == rs[..k] + [rs[k]] + rs[k + 1..];
    assert Records(items[..k] + items[k + 1..], page, look) == rs[..k] + rs[k + 1..];
  }

  lemma TakenOut<T>(items: seq<T>, k: nat)
    requires NoDuplicates(items) && k < |items|
    ensures var rest := items[..k] + items[k + 1..];
            NoDuplicates(rest) && Elements(rest) == Elements(items) - {items[k]}
  {
    var rest := items[..k] + items[k + 1..];
    forall x | x in items && x != items[k] ensures x in rest {
      var j := IndexOf(items, x);
      assert rest[if j < k then j else j - 1] == x;
    }
  }

  /** The same items in another order make the same records. */
  lemma {:induction false} RecordsOfPermutation<T>(a: seq<T>, b: seq<T>, page: map<T, nat>, look: map<T, Look>)
    requires NoDuplicates(a) && NoDuplicates(b) && Elements(a) == Elements(b)
    requires AllPaged(a, page, look) && AllPaged(b, page, look)
    ensures multiset(Records(a, page, look)) == multiset(Records(b, page, look))
    decreases |a|
  {
    if a == [] {
      SizeOfElements(b);
    } else {
      assert a[0] in Elements(b);
      var k := IndexOf(b, a[0]);
      var a', b' := a[..0] + a[0 + 1..], b[..k] + b[k + 1..];
      assert NoDuplicates(a') && NoDuplicates(b') && Elements(a') == Elements(b') by {
        TakenOut(a, 0);
        TakenOut(b, k);
      }
      RecordsWithout(a, 0, page, look);
      RecordsWithout(b, k, page, look);
      RecordsOfPermutation(a', b', page, look);
    }
  }

  // ---- Restoring ----

  function Empty<T(==)>(): Doc<T> {
    Doc([], [], map[])
  }

  /** New items, added one after another, each with the page number of its record. */
  function AddAll<T(==)>(doc: Doc<T>, items: seq<T>, rs: seq<Record>): Doc<T>
    requires |items| == |rs|
  {
    if items == [] then doc
    else
      var n := |items| - 1;
      Add(AddAll(doc, items[..n], rs[..n]), items[n], rs[n].page)
  }

  lemma AddAllStep<T>(doc: Doc<T>, items: seq<T>, rs: seq<Record>, x: T, r: Record)
    requires |items| == |rs|
    ensures AddAll(doc, items + [x], rs + [r]) == Add(AddAll(doc, items, rs), x, r.page)
  {
    assert (items + [x])[..|items|] == items && (rs + [r])[..|rs|] == rs;
  }

  /** Items of their own, none of them in the document yet. */
  ghost predicate AreNew<T>(items: seq<T>, doc: Doc<T>) {
    NoDuplicates(items) && forall i :: 0 <= i < |items| ==> items[i] !in doc.page
  }

  /** `doc'` is `doc` with the items behind the others in both orders, numbered as the records say. */
  ghost predicate Joined<T>(doc: Doc<T>, items: seq<T>, rs: seq<Record>, doc': Doc<T>)
    requires |items| == |rs|
  {
    && doc'.layout == doc.layout + items && doc'.manager == doc.manager + items
    && (forall x :: x in doc.page ==> x in doc'.page && doc'.page[x] == doc.page[x])
    && (forall i :: 0 <= i < |items| ==> items[i] in doc'.page && doc'.page[items[i]] == rs[i].page)
    && (forall x :: x in doc'.page ==> x in doc.page || x in items)
  }

  lemma JoinedStep<T>(doc: Doc<T>, items: seq<T>, rs: seq<Record>, doc': Doc<T>, x: T, r: Record)
    requires |items| == |rs| && SameItems(doc') && Joined(doc, items, rs, doc') && x !in doc.page && x !in items
    ensures Joined(doc, items + [x], rs + [r], Add(doc', x, r.page)) && SameItems(Add(doc', x, r.page))
  {
    assert x !in Elements(doc'.manager);
    AddKeeps(doc', x, r.page);
  }

  lemma SplitLast<T>(s: seq<T>)
    requires s != []
    ensures s == s[..|s| - 1] + [s[|s| - 1]]
  {
  }

  lemma {:induction false} AddAllJoins<T>(doc: Doc<T>, items: seq<T>, rs: seq<Record>)
    requires |items| == |rs| && SameItems(doc) && AreNew(items, doc)
    ensures SameItems(AddAll(doc, items, rs)) && Joined(doc, items, rs, AddAll(doc, items, rs))
  {
    if items != [] {
      var n := |items| - 1;
      AddAllJoins(doc, items[..n], rs[..n]);
      SplitLast(items);
      SplitLast(rs);
      JoinedStep(doc, items[..n], rs[..n], AddAll(doc, items[..n], rs[..n]), items[n], rs[n]);
    }
  }

  /** The displayed pages of a document, as records. */
  function Display<T(==)>(doc: Doc<T>, look: map<T, Look>): seq<Record>
    requires AllPaged(doc.layout, doc.page, look)
  {
    Records(doc.layout, doc.page, look)
  }

  /** What `serialize_items` prints: the pages in the manager's order. */
  function Saved<T(==)>(doc: Doc<T>, look: map<T, Look>): seq<Record>
    requires AllPaged(doc.manager, doc.page, look)
  {
    Records(doc.manager, doc.page, look)
  }

  /** Both orders hold the same items, and every item has a page number and a look. */
  ghost predicate Complete<T>(doc: Doc<T>, look: map<T, Look>) {
    SameItems(doc) && AllPaged(doc.layout, doc.page, look) && AllPaged(doc.manager, doc.page, look)
  }

  /** Page numbers rise along the layout: true of every numbered document. */
  ghost predicate Rising<T>(doc: Doc<T>) {
    && (forall i :: 0 <= i < |doc.layout| ==> doc.layout[i] in doc.page)
    && forall i, j :: 0 <= i < j < |doc.layout| ==> doc.page[doc.layout[i]] < doc.page[doc.layout[j]]
  }

  /** Sorting the saved records by page gives the display back, whichever sort is used. */
  lemma SortRecoversDisplay<T>(doc: Doc<T>, look: map<T, Look>, sorted: seq<Record>)
    requires Complete(doc, look) && Rising(doc) && IsSortOf(sorted, Saved(doc, look))
    ensures sorted == Display(doc, look)
  {
    RecordsOfPermutation(doc.layout, doc.manager, doc.page, look);
    StrictSortIsUnique(Display(doc, look), sorted);
  }

  /**
   Of any document, numbered or not: every sort of the saved records gives the display back exactly when page numbers
   do not fall along the layout and displayed pages with the same number look the same.
   */
  lemma SortRecoversDisplayExactly<T>(doc: Doc<T>, look: map<T, Look>)
    requires Complete(doc, look)
    ensures (forall sorted :: IsSortOf(sorted, Saved(doc, look)) ==> sorted == Display(doc, look)) <==>
            Ascending(Display(doc, look)) && TiesAreEqual(Display(doc, look))
  {
    RecordsOfPermutation(doc.layout, doc.manager, doc.page, look);
    EverySortYields(Display(doc, look), Saved(doc, look));
  }

  /** The records carry the page numbers that follow `n`. */
  predicate NumberedAfter(n: nat, rs: seq<Record>) {
    forall i :: 0 <= i < |rs| ==> rs[i].page == n + i + 1
  }

  /** Restored records go on with a document's numbering exactly when their numbers follow its last page. */
  lemma RestoreContinues<T>(doc: Doc<T>, items: seq<T>, rs: seq<Record>)
    requires |items| == |rs| && Numbered(doc) && AreNew(items, doc)
    ensures Numbered(AddAll(doc, items, rs)) <==> NumberedAfter(|doc.layout|, rs)
    ensures doc.layout == doc.manager ==> AddAll(doc, items, rs).layout == AddAll(doc, items, rs).manager
  {
    AddAllJoins(doc, items, rs);
    JoinedPages(doc, items, rs, AddAll(doc, items, rs));
  }

  /** The number of the page at position `k` when `rs` stand behind `n` numbered pages. */
  function PageBehind(n: nat, rs: seq<Record>, k: nat): nat
    requires k < n + |rs|
  {
    if k < n then k + 1 else rs[k - n].page
  }

  ghost predicate PageAt<T>(doc: Doc<T>, n: nat, rs: seq<Record>, k: nat)
    requires k < n + |rs| == |doc.layout|
  {
    doc.layout[k] in doc.page && doc.page[doc.layout[k]] == PageBehind(n, rs, k)
  }

  lemma JoinedPages<T>(doc: Doc<T>, items: seq<T>, rs: seq<Record>, doc': Doc<T>)
    requires |items| == |rs| && Numbered(doc) && SameItems(doc') && Joined(doc, items, rs, doc')
    ensures Numbered(doc') <==> NumberedAfter(|doc.layout|, rs)
  {
    forall k | 0 <= k < |doc'.layout| ensures PageAt(doc', |doc.layout|, rs, k) {
      JoinedPageAt(doc, items, rs, doc', k);
    }
    NumbersByPosition(|doc.layout|, rs, doc');
  }

  lemma JoinedPageAt<T>(doc: Doc<T>, items: seq<T>, rs: seq<Record>, doc': Doc<T>, k: nat)
    requires |items| == |rs| && Numbered(doc) && Joined(doc, items, rs, doc') && k < |doc'.layout|
    ensures PageAt(doc', |doc.layout|, rs, k)
  {
    if k < |doc.layout| {
      assert doc'.layout[k] == doc.layout[k] && doc.layout[k] in Elements(doc.layout);
    } else {
      assert doc'.layout[k] == items[k - |doc.layout|];
    }
  }

  lemma NumbersByPosition<T>(n: nat, rs: seq<Record>, doc: Doc<T>)
    requires SameItems(doc) && |doc.layout| == n + |rs|
    requires forall k :: 0 <= k < |doc.layout| ==> PageAt(doc, n, rs, k)
    ensures Numbered(doc) <==> NumberedAfter(n, rs)
  {
    if Numbered(doc) {
      forall i | 0 <= i < |rs| ensures rs[i].page == n + i + 1 {
        assert PageAt(doc, n, rs, n + i);
      }
    }
    if NumberedAfter(n, rs) {
      forall k | 0 <= k < |doc.layout| ensures doc.page[doc.layout[k]] == k + 1 {
        assert PageAt(doc, n, rs, k);
      }
    }
  }

  /**
   So a session numbered 1, 2, 3, ... restores to a numbered document only where no pages are: a view that is shown
   again and restores over the pages it still holds has every number twice.
   */
  lemma RestoreNeedsEmpty<T>(doc: Doc<T>, items: seq<T>, rs: seq<Record>)
    requires |items| == |rs| > 0 && Numbered(doc) && AreNew(items, doc)
    requires NumberedAfter(0, rs)
    ensures Numbered(AddAll(doc, items, rs)) <==> doc.layout == []
  {
    RestoreContinues(doc, items, rs);
    if doc.layout != [] {
      assert rs[0].page != |doc.layout| + 0 + 1;
    }
  }

  /** What was saved loads and parses back. */
  lemma SavedSessionLoads(rs: seq<Record>, base: nat)
    requires AllStorable(rs) && InMemory(base, EncodeAll(rs))
    ensures var loaded := Load(Some(SessionFile(EncodeAll(rs))));
            loaded.Data? && Parse(base, loaded.data) == Parsed(rs)
  {
    LoadSaved(EncodeAll(rs));
    ParseEncoded(base, rs);
  }

  /** The new items look as the records say. */
  predicate LooksLike<T(==)>(items: seq<T>, look: map<T, Look>, rs: seq<Record>)
    requires |items| == |rs|
  {
    forall i :: 0 <= i < |rs| ==> items[i] in look && look[items[i]] == Look(rs[i].matrix, rs[i].path)
  }

  /** Records numbered 1, 2, 3, ... restore, in an empty container, to the pages they describe. */
  lemma NumberedRecordsRestore<U>(items: seq<U>, look: map<U, Look>, rs: seq<Record>)
    requires |items| == |rs| && NoDuplicates(items) && LooksLike(items, look, rs)
    requires NumberedAfter(0, rs)
    ensures var doc := AddAll(Empty(), items, rs);
            InStep(doc) && doc.layout == items && Complete(doc, look) && Display(doc, look) == rs
  {
    AddAllJoins(Empty(), items, rs);
    RestoreContinues(Empty(), items, rs);
    JoinedDisplay(items, look, rs, AddAll(Empty(), items, rs));
  }

  lemma JoinedDisplay<U>(items: seq<U>, look: map<U, Look>, rs: seq<Record>, doc: Doc<U>)
    requires |items| == |rs| && LooksLike(items, look, rs)
    requires SameItems(doc) && Joined(Empty(), items, rs, doc)
    ensures doc.layout == doc.manager == items && Complete(doc, look) && Display(doc, look) == rs
  {
    assert doc.layout == items && doc.manager == items;
    forall i | 0 <= i < |rs| ensures RecordOf(items[i], doc.page, look) == rs[i] {
    }
  }

  /**
   Save, load, parse, sort and add to an empty container: the same pages are displayed in the same order with the
   numbers 1 to n, and the manager's order now equals the layout's, whatever moves had parted them.
   */
  lemma SessionRoundTrip<T, U>(doc: Doc<T>, look: map<T, Look>, base: nat, sorted: seq<Record>,
                               items: seq<U>, newLook: map<U, Look>)
    requires Complete(doc, look) && Numbered(doc)
    requires AllStorable(Saved(doc, look)) && InMemory(base, EncodeAll(Saved(doc, look)))
    requires |items| == |sorted| && NoDuplicates(items) && LooksLike(items, newLook, sorted)
    ensures var loaded := Load(Some(SessionFile(EncodeAll(Saved(doc, look)))));
            && loaded.Data? && Parse(base, loaded.data).Parsed?
            && (IsSortOf(sorted, Parse(base, loaded.data).records) ==>
                  var restored := AddAll(Empty(), items, sorted);
                  InStep(restored) && Complete(restored, newLook) && Display(restored, newLook) == Display(doc, look))
    ensures NumberedAfter(0, Display(doc, look))
  {
    SavedSessionLoads(Saved(doc, look), base);
    if IsSortOf(sorted, Saved(doc, look)) {
      SortRecoversDisplay(doc, look, sorted);
      NumberedRecordsRestore(items, newLook, sorted);
    }
  }
}
