/** Page numbering over whole runs of additions, moves and removals. */
module PageRuns {
  import opened PagesModel

  /** The sequence with positions `lo` and `lo + 1` exchanged. */
  function Exchange<T>(s: seq<T>, lo: nat): seq<T>
    requires lo + 1 < |s|
  {
    s[lo := s[lo + 1]][lo + 1 := s[lo]]
  }

  /** The later of two neighbours, taken out and inserted before the other, exchanges them. */
  lemma InsertBefore<T>(s: seq<T>, lo: nat)
    requires NoDuplicates(s) && lo + 1 < |s|
    ensures InsertWidget(s, lo, s[lo + 1]) == Exchange(s, lo)
    ensures NoDuplicates(Exchange(s, lo))
  {
    WithoutAt(s, lo + 1);
    assert Without(s, s[lo + 1])[..lo] == s[..lo];
    assert Without(s, s[lo + 1])[lo..] == [s[lo]] + s[lo + 2..];
    assert Exchange(s, lo) == s[..lo] + [s[lo + 1]] + ([s[lo]] + s[lo + 2..]);
  }

  /** Inserting an item where it already is changes nothing. */
  lemma InsertInPlace<T>(s: seq<T>, at: nat)
    requires NoDuplicates(s) && at < |s|
    ensures InsertWidget(s, at, s[at]) == s
  {
    WithoutAt(s, at);
    var rest := s[..at] + s[at + 1..];
    assert rest[..at] == s[..at] && rest[at..] == s[at + 1..];
    assert s == s[..at] + [s[at]] + s[at + 1..];
  }

  lemma InsertAdjacent<T>(s: seq<T>, lo: nat)
    requires NoDuplicates(s) && lo + 1 < |s|
    ensures InsertWidget(InsertWidget(s, lo, s[lo + 1]), lo + 1, s[lo]) == Exchange(s, lo)
  {
    InsertBefore(s, lo);
    assert Exchange(s, lo)[lo + 1] == s[lo];
    InsertInPlace(Exchange(s, lo), lo + 1);
  }

  lemma ExchangeKeepsElements<T>(s: seq<T>, lo: nat)
    requires NoDuplicates(s) && lo + 1 < |s|
    ensures NoDuplicates(Exchange(s, lo)) && Elements(Exchange(s, lo)) == Elements(s)
  {
    var t := Exchange(s, lo);
    forall x | x in s ensures x in t {
      var k := IndexOf(s, x);
      assert t[if k == lo then lo + 1 else if k == lo + 1 then lo else k] == x;
    }
  }

  /** `doc'` is `doc` with the pages at layout positions `lo` and `lo + 1` exchanged, numbers included. */
  ghost predicate Exchanged<T>(doc: Doc<T>, doc': Doc<T>, lo: int) {
    && 0 <= lo && lo + 1 < |doc.layout|
    && doc'.layout == Exchange(doc.layout, lo) && doc'.manager == doc.manager
    && doc.layout[lo] in doc.page && doc.layout[lo + 1] in doc.page
    && doc'.page == doc.page[doc.layout[lo + 1] := doc.page[doc.layout[lo]]]
                            [doc.layout[lo] := doc.page[doc.layout[lo + 1]]]
  }

  lemma SwapExchanges<T>(doc: Doc<T>, doc': Doc<T>, lo: nat)
    requires SameItems(doc) && lo + 1 < |doc.layout| && doc' == SwapPages(doc, lo, lo + 1)
    ensures Exchanged(doc, doc', lo)
  {
    assert doc.layout[lo] in Elements(doc.layout) && doc.layout[lo + 1] in Elements(doc.layout);
    InsertAdjacent(doc.layout, lo);
  }

  lemma ExchangedKeepsItems<T>(doc: Doc<T>, doc': Doc<T>, lo: int)
    requires SameItems(doc) && Exchanged(doc, doc', lo)
    ensures SameItems(doc')
  {
    ExchangeKeepsElements(doc.layout, lo);
  }

  lemma ExchangedKeepsNumbers<T>(doc: Doc<T>, doc': Doc<T>, lo: int)
    requires Numbered(doc) && Exchanged(doc, doc', lo)
    ensures Numbered(doc')
  {
    ExchangedKeepsItems(doc, doc', lo);
    forall i | 0 <= i < |doc'.layout| ensures doc'.page[doc'.layout[i]] == i + 1 {
      assert doc.layout[i] in Elements(doc.layout);
    }
  }

  /** The lower of the two layout positions a move of page `p` exchanges. */
  function LowerPosition(p: nat, direction: Direction): int {
    if direction == LEFT then p - 2 else p - 1
  }

  /** The two positions of a move that does anything are neighbours. */
  lemma MoveIsSwap<T>(doc: Doc<T>, x: T, direction: Direction)
    requires x in doc.page && !UsesNull(doc, x, direction)
    requires Target(doc.page[x], direction, |doc.layout|) != 0
    ensures var lo := LowerPosition(doc.page[x], direction);
            0 <= lo && lo + 1 < |doc.layout| && Move(doc, x, direction) == SwapPages(doc, lo, lo + 1)
  {
  }

  lemma MoveOrStay<T>(doc: Doc<T>, x: T, direction: Direction)
    requires x in doc.page && Target(doc.page[x], direction, |doc.layout|) == 0
    ensures !UsesNull(doc, x, direction) && Move(doc, x, direction) == doc
  {
  }

  lemma MoveExchanges<T>(doc: Doc<T>, x: T, direction: Direction)
    requires SameItems(doc) && x in doc.page && !UsesNull(doc, x, direction)
    ensures if Target(doc.page[x], direction, |doc.layout|) == 0 then Move(doc, x, direction) == doc
            else Exchanged(doc, Move(doc, x, direction), LowerPosition(doc.page[x], direction))
  {
    if Target(doc.page[x], direction, |doc.layout|) == 0 {
      MoveOrStay(doc, x, direction);
    } else {
      MoveIsSwap(doc, x, direction);
      SwapExchanges(doc, Move(doc, x, direction), LowerPosition(doc.page[x], direction));
    }
  }

  /** A move keeps the items, whatever the page numbers are. */
  lemma MoveKeepsItems<T>(doc: Doc<T>, x: T, direction: Direction)
    requires SameItems(doc) && x in doc.page && !UsesNull(doc, x, direction)
    ensures SameItems(Move(doc, x, direction))
  {
    MoveExchanges(doc, x, direction);
    if Target(doc.page[x], direction, |doc.layout|) != 0 {
      ExchangedKeepsItems(doc, Move(doc, x, direction), LowerPosition(doc.page[x], direction));
    }
  }

  lemma PositionOf<T>(doc: Doc<T>, x: T)
    requires Numbered(doc) && x in doc.page
    ensures 1 <= doc.page[x] <= |doc.layout| && doc.layout[doc.page[x] - 1] == x
  {
    assert x in Elements(doc.layout);
    var k := IndexOf(doc.layout, x);
  }

  /**
   In a numbered document a move finds its item and the neighbour it goes past, exchanges the two and numbers both
   right; a move past either end changes nothing.
   */
  lemma MoveKeepsNumbers<T>(doc: Doc<T>, x: T, direction: Direction)
    requires Numbered(doc) && x in doc.page
    ensures 1 <= doc.page[x] <= |doc.layout| && doc.layout[doc.page[x] - 1] == x
    ensures !UsesNull(doc, x, direction) && Numbered(Move(doc, x, direction))
    ensures if Target(doc.page[x], direction, |doc.layout|) == 0 then Move(doc, x, direction) == doc
            else Exchanged(doc, Move(doc, x, direction), LowerPosition(doc.page[x], direction))
  {
    PositionOf(doc, x);
    MoveExchanges(doc, x, direction);
    if Target(doc.page[x], direction, |doc.layout|) != 0 {
      ExchangedKeepsNumbers(doc, Move(doc, x, direction), LowerPosition(doc.page[x], direction));
    }
  }

  /** What a move that exchanges no pages does. */
  ghost predicate Stays<T>(doc: Doc<T>, x: T, direction: Direction)
    requires x in doc.page
  {
    !UsesNull(doc, x, direction) && Move(doc, x, direction) == doc
  }

  ghost predicate Passes<T>(doc: Doc<T>, x: T, direction: Direction, lo: int)
    requires x in doc.page
  {
    !UsesNull(doc, x, direction) && Exchanged(doc, Move(doc, x, direction), lo)
  }

  /**
   A move to the right of page p exchanges it with page p + 1; the last page, and any number past it, stays.  So would
   the greatest 64-bit number, whose successor wraps to 0.
   */
  lemma RightMoves<T>(doc: Doc<T>, x: T)
    requires SameItems(doc) && x in doc.page
    ensures var p, n := doc.page[x], |doc.layout|;
            if 1 <= p < n && p + 1 < 0x1_0000_0000_0000_0000 then Passes(doc, x, RIGHT, p - 1) else Stays(doc, x, RIGHT)
  {
    if 1 <= doc.page[x] < |doc.layout| && doc.page[x] + 1 < 0x1_0000_0000_0000_0000 {
      MoveExchanges(doc, x, RIGHT);
    }
  }

  /**
   A move to the left of page p exchanges it with page p - 1; the first page stays, and so does a number beyond the
   end, unless it is the next one after the last: then a null item is used.
   */
  lemma LeftMoves<T>(doc: Doc<T>, x: T)
    requires SameItems(doc) && x in doc.page
    ensures var p, n := doc.page[x], |doc.layout|;
            if 2 <= p <= n then Passes(doc, x, LEFT, p - 2)
            else if 2 <= p == n + 1 then UsesNull(doc, x, LEFT)
            else Stays(doc, x, LEFT)
  {
    if 2 <= doc.page[x] <= |doc.layout| {
      MoveExchanges(doc, x, LEFT);
    }
  }

  // ---- Runs ----

  datatype Edit<T(==)> = AddPage(item: T) | RemovePage(item: T) | MovePage(item: T, direction: Direction)

  /** An edit the user can make: new items are new, and the others are there. */
  predicate Offered<T(==)>(doc: Doc<T>, e: Edit<T>) {
    if e.AddPage? then e.item !in doc.page else e.item in doc.page
  }

  predicate Crashes<T(==)>(doc: Doc<T>, e: Edit<T>) {
    Offered(doc, e) && e.MovePage? && UsesNull(doc, e.item, e.direction)
  }

  function Apply<T(==)>(doc: Doc<T>, e: Edit<T>): Doc<T> {
    if !Offered(doc, e) || Crashes(doc, e) then doc else
    match e
    case AddPage(x) => Add(doc, x, |doc.manager| + 1)
    case RemovePage(x) => Remove(doc, x)
    case MovePage(x, direction) => Move(doc, x, direction)
  }

  function Edited<T(==)>(doc: Doc<T>, es: seq<Edit<T>>): Doc<T> {
    if es == [] then doc else Apply(Edited(doc, es[..|es| - 1]), es[|es| - 1])
  }

  lemma ApplyKeepsItems<T>(doc: Doc<T>, e: Edit<T>)
    requires SameItems(doc)
    ensures SameItems(Apply(doc, e))
  {
    if Offered(doc, e) && !Crashes(doc, e) {
      match e
      case AddPage(x) =>
        assert x !in Elements(doc.manager);
        AddKeeps(doc, x, |doc.manager| + 1);
      case RemovePage(x) => RemoveKeepsItems(doc, x);
      case MovePage(x, direction) => MoveKeepsItems(doc, x, direction);
    }
  }

  /** Layout and manager hold the same items at every moment of every run. */
  lemma {:induction false} EditedKeepsItems<T>(doc: Doc<T>, es: seq<Edit<T>>)
    requires SameItems(doc)
    ensures SameItems(Edited(doc, es))
  {
    if es != [] {
      EditedKeepsItems(doc, es[..|es| - 1]);
      ApplyKeepsItems(Edited(doc, es[..|es| - 1]), es[|es| - 1]);
    }
  }

  /** A removal that the two orders agree on; nothing is asked of other edits. */
  ghost predicate Safe<T>(doc: Doc<T>, e: Edit<T>) {
    Offered(doc, e) && e.RemovePage? ==> PrefixesAgree(doc, doc.page[e.item])
  }

  ghost predicate SafeRun<T>(doc: Doc<T>, es: seq<Edit<T>>) {
    es == [] || (SafeRun(doc, es[..|es| - 1]) && Safe(Edited(doc, es[..|es| - 1]), es[|es| - 1]))
  }

  ghost predicate AlwaysNumbered<T>(doc: Doc<T>, es: seq<Edit<T>>) {
    Numbered(Edited(doc, es)) && (es == [] || AlwaysNumbered(doc, es[..|es| - 1]))
  }

  lemma ApplyKeepsNumbers<T>(doc: Doc<T>, e: Edit<T>)
    requires Numbered(doc)
    ensures Numbered(Apply(doc, e)) <==> Safe(doc, e)
    ensures !Crashes(doc, e)
  {
    if Offered(doc, e) {
      match e
      case AddPage(x) =>
        assert x !in Elements(doc.manager);
        AddKeeps(doc, x, |doc.manager| + 1);
      case RemovePage(x) => RemoveKeepsNumbers(doc, x);
      case MovePage(x, direction) => MoveKeepsNumbers(doc, x, direction);
    }
  }

  /** The pages stay numbered as displayed throughout a run exactly when every removal in it is safe. */
  lemma {:induction false} NumberedExactlyOnSafeRuns<T>(doc: Doc<T>, es: seq<Edit<T>>)
    requires Numbered(doc)
    ensures AlwaysNumbered(doc, es) <==> SafeRun(doc, es)
  {
    if es != [] {
      var before := es[..|es| - 1];
      NumberedExactlyOnSafeRuns(doc, before);
      if AlwaysNumbered(doc, before) {
        ApplyKeepsNumbers(Edited(doc, before), es[|es| - 1]);
      }
    }
  }

  /** On such a run no move ever uses an item the layout does not have. */
  lemma SafeRunsDoNotCrash<T>(doc: Doc<T>, es: seq<Edit<T>>, e: Edit<T>)
    requires Numbered(doc) && SafeRun(doc, es)
    ensures !Crashes(Edited(doc, es), e)
  {
    NumberedExactlyOnSafeRuns(doc, es);
    ApplyKeepsNumbers(Edited(doc, es), e);
  }

  /** Some move would use an item the layout does not have. */
  ghost predicate CanCrash<T(!new)>(doc: Doc<T>) {
    exists y, direction :: Crashes(doc, MovePage(y, direction))
  }

  /** An item is numbered just past the last position. */
  ghost predicate NumberedPastEnd<T(!new)>(doc: Doc<T>) {
    doc.layout != [] && exists y :: y in doc.page && doc.page[y] == |doc.layout| + 1
  }

  /** Of any document, numbered or not: a move can crash exactly when an item is numbered just past the end. */
  lemma CrashExactly<T(!new)>(doc: Doc<T>)
    ensures CanCrash(doc) <==> NumberedPastEnd(doc)
  {
    if NumberedPastEnd(doc) {
      var y :| y in doc.page && doc.page[y] == |doc.layout| + 1;
      assert Crashes(doc, MovePage(y, LEFT));
    }
  }

  /** Two or more pages, of which the last is not renumbered when `x` is removed. */
  predicate LeavesLast<T(==)>(doc: Doc<T>, x: T)
    requires x in doc.page
  {
    doc.page[x] < |doc.layout| && doc.layout[|doc.layout| - 1] !in Drop(doc.manager, doc.page[x])
  }

  lemma PastEndAfterRemoval<T(!new)>(doc: Doc<T>, x: T)
    requires Numbered(doc) && x in doc.page
    ensures NumberedPastEnd(Remove(doc, x)) <==> LeavesLast(doc, x)
  {
    var n := |doc.layout|;
    PositionOf(doc, x);
    assert x in Elements(doc.layout);
    WithoutIsRemoval(doc.layout, x);
    var last := doc.layout[n - 1];
    assert last in Elements(doc.layout);
    forall y | y in doc.page && y != x ensures doc.page[y] == n ==> y == last {
      PositionOf(doc, y);
    }
    if LeavesLast(doc, x) {
      assert Remove(doc, x).page[last] == n;
    }
  }

  /**
   Removing a page from a numbered document opens the way to such a crash exactly when it is not the last page and
   the last page stands among the first items of the manager, as many as the removed page's number.
   */
  lemma RemovalAllowsCrash<T(!new)>(doc: Doc<T>, x: T)
    requires Numbered(doc) && x in doc.page
    ensures CanCrash(Remove(doc, x)) <==> LeavesLast(doc, x)
  {
    assert x in Elements(doc.layout);
    WithoutIsRemoval(doc.layout, x);
    PastEndAfterRemoval(doc, x);
    CrashExactly(Remove(doc, x));
  }

  /** The state after a restore: both orders are the same. */
  ghost predicate InStep<T>(doc: Doc<T>) {
    Numbered(doc) && doc.layout == doc.manager
  }

  lemma ApplyKeepsStep<T>(doc: Doc<T>, e: Edit<T>)
    requires InStep(doc) && !e.MovePage?
    ensures InStep(Apply(doc, e)) && Safe(doc, e)
  {
    ApplyKeepsNumbers(doc, e);
    if Offered(doc, e) && e.RemovePage? {
      assert e.item in Elements(doc.layout);
      var k := IndexOf(doc.layout, e.item);
    }
  }

  /** Additions and removals alone keep the orders in step, so after a restore every such run is numbered. */
  lemma {:induction false} WithoutMovesAlwaysInStep<T>(doc: Doc<T>, es: seq<Edit<T>>)
    requires InStep(doc) && forall i :: 0 <= i < |es| ==> !es[i].MovePage?
    ensures InStep(Edited(doc, es)) && SafeRun(doc, es)
  {
    if es != [] {
      var before := es[..|es| - 1];
      WithoutMovesAlwaysInStep(doc, before);
      ApplyKeepsStep(Edited(doc, before), es[|es| - 1]);
    }
  }

  function NoPages(): Doc<int> {
    Doc([], [], map[])
  }

  lemma TwoAdded()
    ensures Apply(Apply(NoPages(), AddPage(0)), AddPage(1)) == Doc([0, 1], [0, 1], map[0 := 1, 1 := 2])
  {
    assert Apply(NoPages(), AddPage(0)) == Doc([0], [0], map[0 := 1]);
  }

  lemma SecondMovedFirst()
    ensures Apply(Doc([0, 1], [0, 1], map[0 := 1, 1 := 2]), MovePage(1, LEFT)) ==
              Doc([1, 0], [0, 1], map[0 := 2, 1 := 1])
  {
    var d: Doc<int> := Doc([0, 1], [0, 1], map[0 := 1, 1 := 2]);
    assert Elements(d.layout) == {0, 1} == d.page.Keys;
    assert Target(d.page[1], LEFT, |d.layout|) == 1 && !UsesNull(d, 1, LEFT);
    MoveExchanges(d, 1, LEFT);
    TwoExchanged(d, Move(d, 1, LEFT));
  }

  lemma TwoExchanged(d: Doc<int>, d': Doc<int>)
    requires d == Doc([0, 1], [0, 1], map[0 := 1, 1 := 2]) && Exchanged(d, d', 0)
    ensures d' == Doc([1, 0], [0, 1], map[0 := 2, 1 := 1])
  {
    assert d'.layout == [1, 0];
  }

  lemma FirstRemoved()
    ensures Apply(Doc([1, 0], [0, 1], map[0 := 2, 1 := 1]), RemovePage(1)) == Doc([0], [0], map[0 := 2])
  {
    assert Without([1, 0], 1) == [0] by { WithoutAt([1, 0], 0); }
    assert Without([0, 1], 1) == [0] by { WithoutAt([0, 1], 1); }
    assert Drop([0, 1], 1) == [1];
  }

  /**
   Of two pages the second is moved to the front and removed: the remaining page is still numbered 2, and moving
   it to the left makes the program use a null item.
   */
  lemma UnsafeRemovalCanCrash()
    ensures var es := [AddPage(0), AddPage(1), MovePage(1, LEFT), RemovePage(1)];
            Crashes(Edited(NoPages(), es), MovePage(0, LEFT))
  {
    var es := [AddPage(0), AddPage(1), MovePage(1, LEFT), RemovePage(1)];
    Prefixes(NoPages(), es);
    TwoAdded();
    SecondMovedFirst();
    FirstRemoved();
  }

  lemma Prefixes(doc: Doc<int>, es: seq<Edit<int>>)
    requires |es| == 4
    ensures Edited(doc, es) == Apply(Apply(Apply(Apply(doc, es[0]), es[1]), es[2]), es[3])
  {
    assert es[..3][..2] == es[..2] && es[..2][..1] == es[..1] && es[..1][..0] == [];
    assert Edited(doc, es[..1]) == Apply(doc, es[0]);
    assert Edited(doc, es[..2]) == Apply(Apply(doc, es[0]), es[1]);
    assert Edited(doc, es[..3]) == Apply(Edited(doc, es[..2]), es[2]);
  }
}
