/** The view over the pages: it saves them as they are added and restores them when it is shown. */
module ImageView {
  import opened Bytes
  import opened PagesModel
  import opened PageSession
  import opened ImageContainer
  import opened SessionStore
  import S = SessionModel
  import Switch = SessionSwitch

  /** Putting a record in front of the first that does not come before it keeps the order. */
  method InsertByPage(sorted: seq<S.Record>, r: S.Record) returns (more: seq<S.Record>)
    requires Ascending(sorted)
    ensures Ascending(more) && multiset(more) == multiset(sorted) + multiset{r}
  {
    var at := 0;
    while at < |sorted| && sorted[at].page < r.page
      invariant 0 <= at <= |sorted|
      invariant forall j :: 0 <= j < at ==> sorted[j].page < r.page
    {
      at := at + 1;
    }
    more := sorted[..at] + [r] + sorted[at..];
    InsertionKeepsOrder(sorted, r, at);
  }

  /** One way to sort by page number; only `IsSortOf` is promised, as of `std::sort`. */
  method SortByPage(rs: seq<S.Record>) returns (sorted: seq<S.Record>)
    ensures IsSortOf(sorted, rs)
  {
    sorted := [];
    for i := 0 to |rs|
      invariant Ascending(sorted) && multiset(sorted) == multiset(rs[..i])
    {
      sorted := InsertByPage(sorted, rs[i]);
      assert rs[..i + 1] == rs[..i] + [rs[i]];
    }
    assert rs[..|rs|] == rs;
  }

  /** A show reacts to the session file; the pages it restores are changes, saved if saving was enabled before. */
  function StoreAfterShow(before: Switch.Store, base: nat, pages: Option<seq<S.Record>>): Switch.Store {
    var saved := if before.disabled || pages.None? then before else Switch.React(before, Switch.Changed(pages.value));
    saved.(disabled := Switch.React(before, Switch.Show(base)).disabled)
  }

  /** A document and its pages before, the items and records added since, and both now. */
  ghost predicate GrownTo<T>(was: Doc<T>, pages: seq<S.Record>, added: seq<T>, done: seq<S.Record>,
                             doc: Doc<T>, now: seq<S.Record>)
  {
    && |added| == |done| && doc == AddAll(was, added, done) && now == pages + done
    && doc.manager == was.manager + added && NoDuplicates(added)
    && (done != [] ==> S.Fits(now))
  }

  lemma GrownStep<T>(was: Doc<T>, pages: seq<S.Record>, added: seq<T>, done: seq<S.Record>,
                     doc: Doc<T>, now: seq<S.Record>, item: T, r: S.Record)
    requires GrownTo(was, pages, added, done, doc, now) && item !in added && S.Fits(now + [r])
    ensures GrownTo(was, pages, added + [item], done + [r], Add(doc, item, r.page), now + [r])
  {
    AddAllStep(was, added, done, item, r);
    assert pages + done + [r] == pages + (done + [r]);
  }

  lemma StoreAfterShowIs(before: Switch.Store, restored: Switch.Store, base: nat, pages: Option<seq<S.Record>>)
    requires restored == if pages.None? then before else Switch.React(before, Switch.Changed(pages.value))
    ensures StoreAfterShow(before, base, pages) ==
            if Switch.Loadable(before.contents, base) then restored.(disabled := false) else
            if pages.None? || before.disabled then before else restored
  {
  }

  /** In terms of the file: it holds the pages if a show added some while saving was enabled, and else what it held. */
  lemma FileAfterShow(before: Switch.Store, base: nat, pages: Option<seq<S.Record>>)
    requires pages.Some? ==> S.Fits(pages.value)
    ensures StoreAfterShow(before, base, pages).contents ==
            if before.disabled || pages.None? then before.contents else Some(S.SessionFile(S.EncodeAll(pages.value)))
    ensures StoreAfterShow(before, base, pages).disabled <==> before.disabled && !Switch.Loadable(before.contents, base)
  {
  }

  /** `CImageView`, as far as pages and session go. */
  class CImageView {
    const grid: ImageItemContainer
    const session: CSessionService
    var sessionSavingDisabled: bool

    constructor (session: CSessionService)
      ensures this.session == session && fresh(grid) && grid.View() == Doc([], [], map[])
      ensures sessionSavingDisabled
    {
      this.session := session;
      var container := new ImageItemContainer();
      grid := container;
      sessionSavingDisabled := true;
    }

    ghost function Looks(): (look: map<ImageItem, Look>)
      reads grid, grid.items
    {
      map x | x in grid.items :: Look(x.matrix, x.path)
    }

    /** The records of the manager's items, in its order. */
    ghost function Pages(): (records: seq<S.Record>)
      reads grid, grid.items
      ensures |records| == |grid.items|
    {
      seq(|grid.items|, i requires 0 <= i < |grid.items| reads grid, grid.items =>
        S.Record(grid.items[i].matrix, grid.items[i].pageNumber, grid.items[i].path))
    }

    lemma PagesAreSaved()
      ensures AllPaged(grid.View().manager, grid.View().page, Looks())
      ensures Pages() == Saved(grid.View(), Looks())
    {
      var page, look := grid.View().page, Looks();
      forall i | 0 <= i < |grid.items| ensures grid.items[i] in page && grid.items[i] in look {
        assert grid.items[i] in grid.items;
      }
      forall i | 0 <= i < |grid.items| ensures Pages()[i] == Records(grid.items, page, look)[i] {
        assert RecordOf(grid.items[i], page, look) ==
               S.Record(grid.items[i].matrix, grid.items[i].pageNumber, grid.items[i].path);
      }
      assert Pages() == Records(grid.items, page, look);
    }

    /** The session file and the switch that keeps it from being written. */
    ghost function Store(): Switch.Store
      reads this, session.sessionFile
    {
      Switch.Store(session.sessionFile.contents, sessionSavingDisabled)
    }

    /** `serialize_items` */
    method Serialized() returns (data: seq<byte>)
      requires S.AllStorable(Pages())
      ensures data == S.EncodeAll(Pages())
    {
      var records := [];
      for i := 0 to |grid.items|
        invariant records == Pages()[..i]
      {
        var item := grid.items[i];
        records := records + [S.Record(item.matrix, item.pageNumber, item.path)];
      }
      assert records == Pages();
      data := SerializeItems(records);
    }

    method SaveSession()
      requires S.Fits(Pages())
      modifies session.sessionFile
      ensures Pages() == old(Pages()) && S.Fits(Pages())
      ensures Store() == Switch.React(old(Store()), Switch.Changed(Pages()))
      ensures session.sessionFile.contents ==
              if sessionSavingDisabled then old(session.sessionFile.contents)
              else Some(S.SessionFile(S.EncodeAll(Pages())))
    {
      if sessionSavingDisabled {
        return;
      }
      var data := Serialized();
      session.SaveSession(data);
    }

    /** A scanned page joins the view, and the session. */
    method AddImage(path: seq<byte>, matrix: seq<byte>) returns (item: ImageItem)
      requires S.Fits(Pages() + [S.Record(matrix, |grid.items| + 1, path)])
      modifies grid, session.sessionFile
      ensures fresh(item) && grid.View() == Add(old(grid.View()), item, |old(grid.items)| + 1)
      ensures Pages() == old(Pages()) + [S.Record(matrix, |old(grid.items)| + 1, path)] && S.Fits(Pages())
      ensures Store() == Switch.React(old(Store()), Switch.Changed(Pages()))
      ensures session.sessionFile.contents ==
              if sessionSavingDisabled then old(session.sessionFile.contents)
              else Some(S.SessionFile(S.EncodeAll(Pages())))
    {
      item := grid.AddImage(path, matrix);
      assert Pages() == old(Pages()) + [S.Record(matrix, |old(grid.items)| + 1, path)];
      SaveSession();
    }

    /** A restored page does too: with saving enabled the session is written anew after each. */
    method AddSerialized(r: S.Record) returns (item: ImageItem)
      requires S.Fits(Pages() + [r])
      modifies grid, session.sessionFile
      ensures fresh(item) && item.path == r.path && item.matrix == r.matrix && item.pageNumber == r.page
      ensures grid.View() == Add(old(grid.View()), item, r.page)
      ensures Pages() == old(Pages()) + [r] && S.Fits(Pages())
      ensures Store() == Switch.React(old(Store()), Switch.Changed(Pages()))
      ensures session.sessionFile.contents ==
              if sessionSavingDisabled then old(session.sessionFile.contents)
              else Some(S.SessionFile(S.EncodeAll(Pages())))
    {
      item := grid.AddSerialized(r);
      assert Pages() == old(Pages()) + [r];
      SaveSession();
    }

    /**
     The body of `showEvent`; `base` is where the bytes of the file come to lie, `accepted` the user's answer.  What
     is required is that memory holds the pages there are and the file.
     */
    method Show(base: nat, accepted: bool) returns (added: seq<ImageItem>, sorted: seq<S.Record>)
      requires S.AllStorable(Pages())
      requires session.sessionFile.contents.Some? ==>
                 S.InMemory(base, session.sessionFile.contents.value)
                 && S.TotalSize(Pages()) + |session.sessionFile.contents.value| < WORD_LIMIT
      modifies this`sessionSavingDisabled, grid, session.sessionFile
      ensures var contents := old(session.sessionFile.contents);
              var found := Switch.Loadable(contents, base);
              && (found ==> IsSortOf(sorted, S.Parse(base, S.Load(contents).data).records))
              && |added| == if found && accepted then |sorted| else 0
      ensures |added| <= |sorted| && Grown(old(grid.View()), old(Pages()), added, sorted[..|added|])
      ensures forall i :: 0 <= i < |added| ==> fresh(added[i])
      ensures Store() == StoreAfterShow(old(Store()), base, if added == [] then None else Some(Pages()))
    {
      ghost var before := Store();
      var found;
      found, sorted := FindSession(base);
      if !found {
        added := [];
        NothingGrown();
        StoreAfterShowIs(before, before, base, None);
        return;
      }
      added := AskAndEnable(accepted, sorted);
      StoreAfterShowIs(before, if added == [] then before else Switch.React(before, Switch.Changed(Pages())), base,
                       if added == [] then None else Some(Pages()));
    }

    /** The second part: ask, add and enable saving. */
    method AskAndEnable(accepted: bool, sorted: seq<S.Record>) returns (added: seq<ImageItem>)
      requires FitThroughout(Pages(), sorted)
      modifies this`sessionSavingDisabled, grid, session.sessionFile
      ensures |added| == if accepted then |sorted| else 0
      ensures Grown(old(grid.View()), old(Pages()), added, sorted[..|added|])
      ensures forall i :: 0 <= i < |added| ==> fresh(added[i])
      ensures Store() == (if added == [] then old(Store())
                          else Switch.React(old(Store()), Switch.Changed(Pages()))).(disabled := false)
    {
      added := Ask(accepted, sorted);
      sessionSavingDisabled := false;
    }

    /** The question in the middle. */
    method Ask(accepted: bool, sorted: seq<S.Record>) returns (added: seq<ImageItem>)
      requires FitThroughout(Pages(), sorted)
      modifies grid, session.sessionFile
      ensures |added| == if accepted then |sorted| else 0
      ensures SoFar(old(grid.View()), old(Pages()), old(Store()), added, sorted[..|added|])
      ensures forall i :: 0 <= i < |added| ==> fresh(added[i])
    {
      if accepted {
        added := AddRestored(sorted);
        assert sorted[..|added|] == sorted;
      } else {
        added := [];
        NothingGrown();
      }
    }

    /** The first part: load, parse and sort. */
    method FindSession(base: nat) returns (found: bool, sorted: seq<S.Record>)
      requires S.AllStorable(Pages())
      requires session.sessionFile.contents.Some? ==>
                 S.InMemory(base, session.sessionFile.contents.value)
                 && S.TotalSize(Pages()) + |session.sessionFile.contents.value| < WORD_LIMIT
      ensures found == Switch.Loadable(session.sessionFile.contents, base)
      ensures if found then IsSortOf(sorted, S.Parse(base, S.Load(session.sessionFile.contents).data).records)
              else sorted == []
      ensures FitThroughout(Pages(), sorted)
    {
      sorted := [];
      var loaded := session.LoadSession();
      if !loaded.Data? {
        return false, sorted;
      }
      var parsed := DeserializeItems(base, loaded.data);
      if !parsed.Parsed? {
        return false, sorted;
      }
      sorted := SortByPage(parsed.records);
      RestoredFitThroughout(Pages(), base, loaded.data, sorted);
      found := true;
    }

    /** The end of `sl_save_pdf`: once the document is exported its session is removed. */
    method RemoveSession()
      modifies session.sessionFile
      ensures Store() == Switch.React(old(Store()), Switch.Exported) && session.sessionFile.contents == None
    {
      session.RemoveSession();
    }

    /** The loop of `showEvent`. */
    method AddRestored(sorted: seq<S.Record>) returns (added: seq<ImageItem>)
      requires FitThroughout(Pages(), sorted)
      modifies grid, session.sessionFile
      ensures SoFar(old(grid.View()), old(Pages()), old(Store()), added, sorted)
      ensures forall i :: 0 <= i < |added| ==> fresh(added[i])
    {
      added := [];
      ghost var was, pages, before := grid.View(), Pages(), Store();
      for i := 0 to |sorted|
        invariant |added| == i && SoFar(was, pages, before, added, sorted[..i])
        invariant forall j :: 0 <= j < i ==> fresh(added[j])
      {
        var item := RestoreOne(was, pages, before, added, sorted, i);
        added := added + [item];
      }
      assert sorted[..|sorted|] == sorted;
    }

    /** The grid, and its pages, were as the first two say; since then the records `done` were added as these items. */
    ghost predicate Grown(was: Doc<ImageItem>, pages: seq<S.Record>, added: seq<ImageItem>, done: seq<S.Record>)
      reads grid, grid.items
    {
      GrownTo(was, pages, added, done, grid.View(), Pages())
    }

    lemma NothingGrown()
      ensures Grown(grid.View(), Pages(), [], [])
    {
    }

    /** And the session file was written anew, if at all. */
    ghost predicate SoFar(was: Doc<ImageItem>, pages: seq<S.Record>, before: Switch.Store,
                          added: seq<ImageItem>, done: seq<S.Record>)
      reads this, grid, grid.items, session.sessionFile
    {
      && Grown(was, pages, added, done)
      && Store() == if done == [] then before else Switch.React(before, Switch.Changed(Pages()))
    }

    /** One turn of that loop. */
    method RestoreOne(ghost was: Doc<ImageItem>, ghost pages: seq<S.Record>, ghost before: Switch.Store,
                      ghost added: seq<ImageItem>, sorted: seq<S.Record>, i: nat) returns (item: ImageItem)
      requires i < |sorted| && SoFar(was, pages, before, added, sorted[..i]) && FitThroughout(pages, sorted)
      modifies grid, session.sessionFile
      ensures fresh(item) && SoFar(was, pages, before, added + [item], sorted[..i + 1])
    {
      ghost var earlier := Pages();
      assert sorted[..i + 1] == sorted[..i] + [sorted[i]];
      assert earlier + [sorted[i]] == pages + sorted[..i + 1];
      item := GrowOne(was, pages, added, sorted[..i], sorted[i]);
      Switch.ChangesOverwrite(before, earlier, Pages());
    }

    method GrowOne(ghost was: Doc<ImageItem>, ghost pages: seq<S.Record>, ghost added: seq<ImageItem>,
                   ghost done: seq<S.Record>, r: S.Record) returns (item: ImageItem)
      requires Grown(was, pages, added, done) && S.Fits(Pages() + [r])
      modifies grid, session.sessionFile
      ensures fresh(item) && Grown(was, pages, added + [item], done + [r]) && S.Fits(Pages())
      ensures Store() == Switch.React(old(Store()), Switch.Changed(Pages()))
    {
      ghost var view, earlier := grid.View(), Pages();
      item := AddSerialized(r);
      GrownStep(was, pages, added, done, view, earlier, item, r);
    }
  }
}
