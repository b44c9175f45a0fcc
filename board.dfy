/** The notes page as the event handlers of the client change it: the
    children of the notes wrapper (note cards and the "+" control, in
    document order), the remote calls issued to the store and the toasts
    shown. Each handler is one method; the store's answers are parameters. */
module Board {
  import opened Wrappers
  import opened Notes
  import LoadOrder
  import PinOrder
  import AutoSave
  import Search

  /** Moving a loaded card keeps every card well formed. */
  lemma MovesKeepWellFormed(s: seq<Child>, i: nat)
    requires i < |s| && s[i].NoteCard? && s[i].card.kind == Loaded && AllWellFormed(s)
    ensures AllWellFormed(PinOrder.PinMoved(s, i))
    ensures AllWellFormed(PinOrder.UnpinMoved(s, i))
  {
    var rest := PinOrder.Remove(s, i);
    assert AllWellFormed(rest) by {
      forall m | 0 <= m < |rest| && rest[m].NoteCard? ensures WellFormed(rest[m].card) {
        if m < i { assert rest[m] == s[m]; } else { assert rest[m] == s[m + 1]; }
      }
    }
    forall p: nat, x: Child | p <= |rest| && x.NoteCard? && WellFormed(x.card)
      ensures AllWellFormed(PinOrder.InsertAt(rest, p, x))
    {
      var r := PinOrder.InsertAt(rest, p, x);
      forall m | 0 <= m < |r| && r[m].NoteCard? ensures WellFormed(r[m].card) {
        if m < p { assert r[m] == rest[m]; } else if m > p { assert r[m] == rest[m - 1]; }
      }
    }
    assert WellFormed(PinOrder.WithPinned(s[i], true).card);
    assert WellFormed(PinOrder.WithPinned(s[i], false).card);
  }

  /** Removing a child keeps every card well formed. */
  lemma RemoveKeepsWellFormed(s: seq<Child>, i: nat)
    requires i < |s| && AllWellFormed(s)
    ensures AllWellFormed(PinOrder.Remove(s, i))
  {
    var rest := PinOrder.Remove(s, i);
    forall m | 0 <= m < |rest| && rest[m].NoteCard? ensures WellFormed(rest[m].card) {
      if m < i { assert rest[m] == s[m]; } else { assert rest[m] == s[m + 1]; }
    }
  }

  class NotesBoard {
    /** The wrapper's children, in document order. */
    var children: seq<Child>
    /** The remote calls issued to the store, in order. */
    var calls: seq<Call>
    /** The toasts shown, in order. */
    var toasts: seq<Toast>

    ghost predicate Valid()
      reads this
    {
      AllWellFormed(children)
    }

    /** The first load after sign-in, which creates the wrapper; `ok` is
        whether `getNotes` succeeds. A rejected `getNotes` is not caught
        there: the wrapper stays empty, with no "+" control and no toast. */
    constructor (notes: seq<StoredNote>, ok: bool)
      ensures Valid()
      ensures ok ==> children == LoadOrder.Rendered(notes)
      ensures !ok ==> children == []
      ensures calls == [GetNotes] && toasts == []
    {
      children, calls, toasts := [], [], [];
      new;
      Load(notes, ok);
    }

    /** `loadAndRenderNotes`: empty the wrapper, fetch the notes (`ok` is
        whether `getNotes` succeeds, `notes` what it returns), append the
        pinned ones and then the unpinned ones, each in store order, then the
        "+" control. When `getNotes` is rejected the wrapper stays empty. */
    method Load(notes: seq<StoredNote>, ok: bool)
      modifies this
      ensures Valid()
      ensures ok ==> children == LoadOrder.Rendered(notes)
      ensures !ok ==> children == []
      ensures calls == old(calls) + [GetNotes] && toasts == old(toasts)
    {
      children := [];
      calls := calls + [GetNotes];
      if !ok {
        return;
      }
      var pinnedNotes := LoadOrder.Filter(notes, true);
      var unpinnedNotes := LoadOrder.Filter(notes, false);
      ghost var shown := LoadOrder.DisplayOrder(notes);
      for k := 0 to |pinnedNotes|
        invariant |children| == k
        invariant forall j :: 0 <= j < k ==> children[j] == NoteCard(LoadedCard(shown[j]))
        invariant calls == old(calls) + [GetNotes] && toasts == old(toasts)
      {
        children := children + [NoteCard(LoadedCard(pinnedNotes[k]))];
      }
      for k := 0 to |unpinnedNotes|
        invariant |children| == |pinnedNotes| + k
        invariant forall j :: 0 <= j < |pinnedNotes| + k ==> children[j] == NoteCard(LoadedCard(shown[j]))
        invariant calls == old(calls) + [GetNotes] && toasts == old(toasts)
      {
        children := children + [NoteCard(LoadedCard(unpinnedNotes[k]))];
      }
      assert children == LoadOrder.Cards(shown);
      children := children + [AddControl];
      LoadOrder.RenderedShape(notes);
    }

    /** `createNewNote`: an empty draft card, showing "📍", goes to the top
        of the wrapper. */
    method AddNote()
      requires Valid()
      modifies this
      ensures Valid()
      ensures children == [NoteCard(NewDraft)] + old(children)
      ensures calls == old(calls) && toasts == old(toasts)
    {
      children := [NoteCard(NewDraft)] + children;
    }

    /** An input event on card `i`'s title or textarea at time `now`: the
        fields hold the new values and the card's timer restarts. */
    method Input(i: nat, title: string, content: string, now: int)
      requires Valid() && i < |children| && children[i].NoteCard?
      modifies this
      ensures Valid()
      ensures children == old(children)[i := NoteCard(AutoSave.Edit(old(children)[i].card, title, content, now))]
      ensures calls == old(calls) && toasts == old(toasts)
    {
      var c := children[i].card;
      children := children[i := NoteCard(AutoSave.Edit(c, title, content, now))];
    }

    /** Card `i`'s pending timer fires and the store answers `ok` (and, to a
        `create`, `newId`). */
    method Fire(i: nat, ok: bool, newId: Id)
      requires Valid() && i < |children| && children[i].NoteCard? && children[i].card.timer.Pending?
      modifies this
      ensures Valid()
      ensures var o := AutoSave.Fire(old(children)[i].card, ok, newId);
        && children == old(children)[i := NoteCard(o.card)]
        && calls == old(calls) + (if o.call.Some? then [o.call.value] else [])
        && toasts == old(toasts) + (if o.toast.Some? then [o.toast.value] else [])
    {
      var o := AutoSave.Fire(children[i].card, ok, newId);
      children := children[i := NoteCard(o.card)];
      if o.call.Some? {
        calls := calls + [o.call.value];
      }
      if o.toast.Some? {
        toasts := toasts + [o.toast.value];
      }
    }

    /** The pin button of loaded card `i`: `setPinned(id, !pinned)` first;
        only when the store accepts it does the flag flip and the card move
        (to the front when pinned, after the first other card not showing
        "📌" or to the end when unpinned). On failure only a toast. */
    method TogglePin(i: nat, ok: bool)
      requires Valid() && i < |children| && children[i].NoteCard? && children[i].card.kind == Loaded
      modifies this
      ensures Valid()
      ensures var c := old(children)[i].card;
        && calls == old(calls) + [SetPinned(c.id.value, !c.pinned)]
        && (ok ==> toasts == old(toasts)
                   && children == if c.pinned then PinOrder.UnpinMoved(old(children), i)
                                  else PinOrder.PinMoved(old(children), i))
        && (!ok ==> toasts == old(toasts) + [PinFailed] && children == old(children))
    {
      var c := children[i].card;
      calls := calls + [SetPinned(c.id.value, !c.pinned)];
      if !ok {
        toasts := toasts + [PinFailed];
        return;
      }
      MovesKeepWellFormed(children, i);
      if !c.pinned {
        children := PinOrder.PinMoved(children, i);
      } else {
        children := PinOrder.UnpinMoved(children, i);
      }
    }

    /** The pin button of draft `i`: nothing before the draft has an id;
        otherwise `setPinned(id, !pinned)`, and on success the button shows
        the new state and the whole list is reloaded (`reloadOk` is whether
        `getNotes` then succeeds, `store` what it returns). A failure of
        either call shows one toast; a failed reload leaves the wrapper it
        has already emptied. */
    method ToggleDraftPin(i: nat, ok: bool, reloadOk: bool, store: seq<StoredNote>)
      requires Valid() && i < |children| && children[i].NoteCard? && children[i].card.kind.Draft?
      modifies this
      ensures Valid()
      ensures var c := old(children)[i].card;
        && (c.id.None? ==> children == old(children) && calls == old(calls) && toasts == old(toasts))
        && (c.id.Some? && !ok ==>
              children == old(children) && calls == old(calls) + [SetPinned(c.id.value, !c.pinned)]
              && toasts == old(toasts) + [PinFailed])
        && (c.id.Some? && ok ==> calls == old(calls) + [SetPinned(c.id.value, !c.pinned), GetNotes])
        && (c.id.Some? && ok && reloadOk ==> children == LoadOrder.Rendered(store) && toasts == old(toasts))
        && (c.id.Some? && ok && !reloadOk ==> children == [] && toasts == old(toasts) + [PinFailed])
    {
      var c := children[i].card;
      if c.id.None? {
        return;
      }
      calls := calls + [SetPinned(c.id.value, !c.pinned)];
      if !ok {
        toasts := toasts + [PinFailed];
        return;
      }
      var pinned := !c.pinned;
      children := children[i := NoteCard(c.(pinned := pinned, glyph := if pinned then Pushpin else RoundPushpin))];
      Load(store, reloadOk);
      if !reloadOk {
        toasts := toasts + [PinFailed];
      }
    }

    /** The delete button of card `i`. On a draft not yet created it is
        "Discard": the card goes, with no remote call. Otherwise, once the
        user confirms, `delete(id)` is called and the card goes only when the
        call returns (a loaded card also shows a toast); a rejected call
        changes nothing on the page. */
    method DeleteOrDiscard(i: nat, confirmed: bool, ok: bool)
      requires Valid() && i < |children| && children[i].NoteCard?
      modifies this
      ensures Valid()
      ensures var c := old(children)[i].card;
        && (c.kind == Draft(false) ==>
              children == PinOrder.Remove(old(children), i) && calls == old(calls) && toasts == old(toasts))
        && (c.kind != Draft(false) && !confirmed ==>
              children == old(children) && calls == old(calls) && toasts == old(toasts))
        && (c.kind != Draft(false) && confirmed ==> calls == old(calls) + [Delete(c.id.value)])
        && (c.kind != Draft(false) && confirmed && !ok ==> children == old(children) && toasts == old(toasts))
        && (c.kind != Draft(false) && confirmed && ok ==>
              children == PinOrder.Remove(old(children), i)
              && toasts == old(toasts) + (if c.kind == Loaded then [NoteDeleted] else []))
    {
      var c := children[i].card;
      RemoveKeepsWellFormed(children, i);
      if c.kind == Draft(false) {
        children := PinOrder.Remove(children, i);
        return;
      }
      if !confirmed {
        return;
      }
      calls := calls + [Delete(c.id.value)];
      if !ok {
        return;
      }
      children := PinOrder.Remove(children, i);
      if c.kind == Loaded {
        toasts := toasts + [NoteDeleted];
      }
    }

    /** The search box's input handler: every note card's visibility is set
        by the query, in document order; nothing else changes. */
    method ApplySearch(query: string)
      requires Valid()
      modifies this
      ensures Valid()
      ensures children == Search.Searched(old(children), query)
      ensures calls == old(calls) && toasts == old(toasts)
    {
      var k := 0;
      while k < |children|
        invariant 0 <= k <= |children| == |old(children)|
        invariant forall j :: 0 <= j < k ==> children[j] == Search.Shown(old(children)[j], query)
        invariant forall j :: k <= j < |children| ==> children[j] == old(children)[j]
        invariant calls == old(calls) && toasts == old(toasts)
      {
        if children[k].NoteCard? {
          children := children[k := Search.Shown(children[k], query)];
        }
        k := k + 1;
      }
    }
  }
}
