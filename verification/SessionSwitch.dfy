/**
 When the view saves at all.  Saving starts out disabled and is enabled by a show that finds a session it can
 load; nothing else creates the session file.
 */
module SessionSwitch {
  import opened Bytes
  import opened SessionModel

  datatype Store = Store(contents: Option<seq<byte>>, disabled: bool)

  /**
   A show whose session bytes are read to the address `base`; a change of the pages, also by a show that restores
   some while saving is enabled; an export to PDF.
   */
  datatype UiEvent = Show(base: nat) | Changed(pages: seq<Record>) | Exported

  predicate Loadable(contents: Option<seq<byte>>, base: nat) {
    var loaded := Load(contents);
    loaded.Data? && Parse(base, loaded.data).Parsed?
  }

  function React(s: Store, e: UiEvent): Store {
    match e
    case Show(base) => if Loadable(s.contents, base) then s.(disabled := false) else s
    case Changed(pages) =>
      if s.disabled || !Fits(pages) then s else s.(contents := Some(SessionFile(EncodeAll(pages))))
    case Exported => s.(contents := None)
  }

  /** A later change of the pages leaves nothing of an earlier one. */
  lemma ChangesOverwrite(s: Store, pages: seq<Record>, later: seq<Record>)
    requires Fits(later)
    ensures React(React(s, Changed(pages)), Changed(later)) == React(s, Changed(later))
  {
  }

  function Lived(contents: Option<seq<byte>>, es: seq<UiEvent>): Store {
    if es == [] then Store(contents, true) else React(Lived(contents, es[..|es| - 1]), es[|es| - 1])
  }

  /** Some show finds the initial file before an export removes it, and can load it. */
  predicate FoundSession(contents: Option<seq<byte>>, es: seq<UiEvent>) {
    es != [] &&
    (FoundSession(contents, es[..|es| - 1]) ||
     (es[|es| - 1].Show? && Exported !in es[..|es| - 1] && Loadable(contents, es[|es| - 1].base)))
  }

  /**
   Saving becomes enabled exactly in the lives in which the session file present at the start is found and loads.
   In all others the file is never written: it stays as it was until an export removes it.
   */
  lemma {:induction false} SavingNeedsASession(contents: Option<seq<byte>>, es: seq<UiEvent>)
    ensures !Lived(contents, es).disabled <==> FoundSession(contents, es)
    ensures !FoundSession(contents, es) ==> Lived(contents, es).contents == if Exported in es then None else contents
  {
    if es != [] {
      var before, e := es[..|es| - 1], es[|es| - 1];
      SavingNeedsASession(contents, before);
      assert es == before + [e];
    }
  }

  /** So a program that starts without a session file never leaves one behind, whatever is scanned or edited. */
  lemma {:induction false} NoSessionIsEverStarted(es: seq<UiEvent>)
    ensures Lived(None, es) == Store(None, true)
  {
    if es != [] {
      NoSessionIsEverStarted(es[..|es| - 1]);
    }
  }

  /** Loading and parsing the file, read to the address `base`, gives these pages. */
  predicate Holds(contents: Option<seq<byte>>, base: nat, pages: seq<Record>) {
    var loaded := Load(contents);
    loaded.Data? && Parse(base, loaded.data) == Parsed(pages)
  }

  lemma SavedFileHolds(pages: seq<Record>, base: nat)
    requires Fits(pages) && InMemory(base, EncodeAll(pages))
    ensures Holds(Some(SessionFile(EncodeAll(pages))), base, pages)
  {
    LoadSaved(EncodeAll(pages));
    ParseEncoded(base, pages);
  }

  /** Events that leave the file alone: shows, and changes to pages that do not fit. */
  predicate Idle(es: seq<UiEvent>) {
    forall i :: 0 <= i < |es| ==> es[i].Show? || (es[i].Changed? && !Fits(es[i].pages))
  }

  lemma {:induction false} IdleKeepsFile(contents: Option<seq<byte>>, es: seq<UiEvent>, more: seq<UiEvent>)
    requires Idle(more)
    ensures Lived(contents, es + more).contents == Lived(contents, es).contents
  {
    if more == [] {
      assert es + more == es;
    } else {
      var before := more[..|more| - 1];
      assert (es + more)[..|es + more| - 1] == es + before;
      IdleKeepsFile(contents, es, before);
    }
  }

  /**
   Once a session was found, every change of the pages reaches the file: loading and parsing it gives these pages, at
   once and until the next change or export.
   */
  lemma ChangesReachTheFile(contents: Option<seq<byte>>, es: seq<UiEvent>, pages: seq<Record>, more: seq<UiEvent>,
                            base: nat)
    requires FoundSession(contents, es) && Fits(pages) && InMemory(base, EncodeAll(pages)) && Idle(more)
    ensures Holds(Lived(contents, es + [Changed(pages)] + more).contents, base, pages)
  {
    SavingNeedsASession(contents, es);
    assert (es + [Changed(pages)])[..|es|] == es;
    IdleKeepsFile(contents, es + [Changed(pages)], more);
    SavedFileHolds(pages, base);
  }

  /** And an export leaves none, until the next change. */
  lemma ExportsRemoveTheFile(contents: Option<seq<byte>>, es: seq<UiEvent>, more: seq<UiEvent>)
    requires Idle(more)
    ensures Lived(contents, es + [Exported] + more).contents == None
  {
    assert (es + [Exported])[..|es|] == es;
    IdleKeepsFile(contents, es + [Exported], more);
  }
}
