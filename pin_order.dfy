/** How the pin button of a loaded card reorders the wrapper's children
    once the store has accepted `setPinned`: pinning prepends the card;
    unpinning puts it right after the first other card whose pin button
    does not show "📌", or appends it to the wrapper when there is none. */
module PinOrder {
  import opened Wrappers
  import opened Notes
  import LoadOrder

  /** `s` without its element at `i`. */
  function Remove<T>(s: seq<T>, i: nat): (r: seq<T>)
    requires i < |s|
    ensures |r| == |s| - 1
    ensures forall k :: 0 <= k < i ==> r[k] == s[k]
    ensures forall k :: i <= k < |r| ==> r[k] == s[k + 1]
  {
    s[..i] + s[i + 1..]
  }

  /** `s` with `x` inserted so that it sits at index `p`. */
  function InsertAt<T>(s: seq<T>, p: nat, x: T): (r: seq<T>)
    requires p <= |s|
    ensures |r| == |s| + 1 && r[p] == x
    ensures forall k :: 0 <= k < p ==> r[k] == s[k]
    ensures forall k :: p < k < |r| ==> r[k] == s[k - 1]
  {
    s[..p] + [x] + s[p..]
  }

  /** Removing what was inserted gives back the original. */
  lemma RemoveInserted<T>(s: seq<T>, p: nat, x: T)
    requires p <= |s|
    ensures Remove(InsertAt(s, p, x), p) == s
  {
    var r := Remove(InsertAt(s, p, x), p);
    assert forall k :: 0 <= k < |s| ==> r[k] == s[k];
  }

  lemma RemoveMultiset<T>(s: seq<T>, i: nat)
    requires i < |s|
    ensures multiset(Remove(s, i)) + multiset{s[i]} == multiset(s)
  {
    assert s == s[..i] + [s[i]] + s[i + 1..];
  }

  lemma InsertMultiset<T>(s: seq<T>, p: nat, x: T)
    requires p <= |s|
    ensures multiset(InsertAt(s, p, x)) == multiset(s) + multiset{x}
  {
    assert s == s[..p] + s[p..];
  }

  /** The card `find` accepts: one whose pin button text lacks "📌". */
  predicate Unmarked(ch: Child) {
    ch.NoteCard? && ch.card.glyph != Pushpin
  }

  /** `Array.prototype.find` with the test above: the index of the first
      unmarked card, if any. */
  function FirstUnmarked(s: seq<Child>): (r: Option<nat>)
    ensures r.Some? ==> r.value < |s| && Unmarked(s[r.value])
    ensures r.Some? ==> forall k :: 0 <= k < r.value ==> !Unmarked(s[k])
    ensures r.None? ==> forall k :: 0 <= k < |s| ==> !Unmarked(s[k])
  {
    if s == [] then None
    else if Unmarked(s[0]) then Some(0)
    else match FirstUnmarked(s[1..])
      case Some(j) => Some(j + 1)
      case None => None
  }

  /** The index at which the unpinned card lands among the other children:
      right after the first unmarked one, otherwise at the end. */
  function UnpinSlot(rest: seq<Child>): (p: nat)
    ensures p <= |rest|
  {
    match FirstUnmarked(rest)
    case Some(j) => j + 1
    case None => |rest|
  }

  /** The card with its `pinned` flag set to `pinned`. */
  function WithPinned(ch: Child, pinned: bool): Child
    requires ch.NoteCard?
  {
    NoteCard(ch.card.(pinned := pinned))
  }

  /** `notesWrapper.prepend(noteContainer)` after a successful pin. */
  function PinMoved(s: seq<Child>, i: nat): (r: seq<Child>)
    requires i < |s| && s[i].NoteCard?
    ensures |r| == |s| && r[0] == WithPinned(s[i], true)
    ensures r[1..] == Remove(s, i)
  {
    InsertAt(Remove(s, i), 0, WithPinned(s[i], true))
  }

  /** `insertAfter.after(noteContainer)` or `notesWrapper.appendChild(noteContainer)`
      after a successful unpin. */
  function UnpinMoved(s: seq<Child>, i: nat): (r: seq<Child>)
    requires i < |s| && s[i].NoteCard?
    ensures |r| == |s|
    ensures var f := FirstUnmarked(Remove(s, i));
      && (f.Some? ==> r[f.value + 1] == WithPinned(s[i], false))
      && (f.None? ==> r[|r| - 1] == WithPinned(s[i], false))
  {
    var rest := Remove(s, i);
    InsertAt(rest, UnpinSlot(rest), WithPinned(s[i], false))
  }

  /** Pinning puts the card first with its flag set; the other children keep
      their relative order; the children are the old ones with that one card
      updated. */
  lemma PinMovesToFront(s: seq<Child>, i: nat)
    requires i < |s| && s[i].NoteCard?
    ensures |PinMoved(s, i)| == |s|
    ensures PinMoved(s, i)[0] == NoteCard(s[i].card.(pinned := true))
    ensures Remove(PinMoved(s, i), 0) == Remove(s, i)
    ensures multiset(PinMoved(s, i)) + multiset{s[i]} == multiset(s) + multiset{WithPinned(s[i], true)}
  {
    RemoveInserted(Remove(s, i), 0, WithPinned(s[i], true));
    RemoveMultiset(s, i);
    InsertMultiset(Remove(s, i), 0, WithPinned(s[i], true));
  }

  /** Unpinning puts the card, flag cleared, at `UnpinSlot` among the other
      children, which keep their relative order; the children are the old
      ones with that one card updated. */
  lemma UnpinMovesCard(s: seq<Child>, i: nat)
    requires i < |s| && s[i].NoteCard?
    ensures var r, p := UnpinMoved(s, i), UnpinSlot(Remove(s, i));
      && |r| == |s|
      && r[p] == NoteCard(s[i].card.(pinned := false))
      && Remove(r, p) == Remove(s, i)
      && multiset(r) + multiset{s[i]} == multiset(s) + multiset{WithPinned(s[i], false)}
  {
    var rest := Remove(s, i);
    RemoveInserted(rest, UnpinSlot(rest), WithPinned(s[i], false));
    RemoveMultiset(s, i);
    InsertMultiset(rest, UnpinSlot(rest), WithPinned(s[i], false));
  }

  /** When another card does not show "📌", the unpinned card lands right
      after the first such card. */
  lemma UnpinLandsAfterFirstUnmarked(s: seq<Child>, i: nat, k: nat)
    requires i < |s| && s[i].NoteCard?
    requires k < |s| && k != i && Unmarked(s[k])
    ensures var r, p := UnpinMoved(s, i), UnpinSlot(Remove(s, i));
      && 0 < p && Unmarked(r[p - 1])
      && forall m :: 0 <= m < p - 1 ==> !Unmarked(r[m])
  {
    var rest := Remove(s, i);
    var k' := if k < i then k else k - 1;
    assert rest[k'] == s[k];
    assert FirstUnmarked(rest).Some?;
  }

  /** When every other card shows "📌", the unpinned card becomes the last
      child of the wrapper. */
  lemma UnpinLandsLast(s: seq<Child>, i: nat)
    requires i < |s| && s[i].NoteCard?
    requires forall k :: 0 <= k < |s| && k != i ==> !Unmarked(s[k])
    ensures UnpinMoved(s, i) == Remove(s, i) + [WithPinned(s[i], false)]
  {
    var rest := Remove(s, i);
    forall m | 0 <= m < |rest| ensures !Unmarked(rest[m]) {
      if m < i { assert rest[m] == s[m]; } else { assert rest[m] == s[m + 1]; }
    }
    assert FirstUnmarked(rest) == None;
  }

  // ---- The pinned-first order among loaded cards ----

  predicate IsPinnedLoaded(ch: Child) {
    ch.NoteCard? && ch.card.kind == Loaded && ch.card.pinned
  }

  predicate IsUnpinnedLoaded(ch: Child) {
    ch.NoteCard? && ch.card.kind == Loaded && !ch.card.pinned
  }

  /** No loaded unpinned card comes before a loaded pinned one. */
  predicate PinnedFirst(s: seq<Child>) {
    forall a, b :: 0 <= a < b < |s| && IsUnpinnedLoaded(s[a]) ==> !IsPinnedLoaded(s[b])
  }

  /** A load leaves the cards pinned-first. */
  lemma RenderedPinnedFirst(notes: seq<StoredNote>)
    ensures PinnedFirst(LoadOrder.Rendered(notes))
  {
    var r := LoadOrder.Rendered(notes);
    var d := LoadOrder.DisplayOrder(notes);
    LoadOrder.RenderedShape(notes);
    LoadOrder.DisplayOrderPinnedFirst(notes);
    forall a, b | 0 <= a < b < |r| && IsUnpinnedLoaded(r[a]) ensures !IsPinnedLoaded(r[b]) {
      if b < |notes| {
        assert r[a] == NoteCard(LoadedCard(d[a])) && r[b] == NoteCard(LoadedCard(d[b]));
      }
    }
  }

  /** Removing a card keeps the cards pinned-first. */
  lemma RemoveKeepsPinnedFirst(s: seq<Child>, i: nat)
    requires i < |s| && PinnedFirst(s)
    ensures PinnedFirst(Remove(s, i))
  {
    var r := Remove(s, i);
    forall a, b | 0 <= a < b < |r| && IsUnpinnedLoaded(r[a]) ensures !IsPinnedLoaded(r[b]) {
      var a', b' := if a < i then a else a + 1, if b < i then b else b + 1;
      assert r[a] == s[a'] && r[b] == s[b'];
    }
  }

  /** Pinning a loaded card keeps the cards pinned-first. */
  lemma PinKeepsPinnedFirst(s: seq<Child>, i: nat)
    requires i < |s| && s[i].NoteCard? && PinnedFirst(s)
    ensures PinnedFirst(PinMoved(s, i))
  {
    var rest := Remove(s, i);
    RemoveKeepsPinnedFirst(s, i);
    var r := PinMoved(s, i);
    forall a, b | 0 <= a < b < |r| && IsUnpinnedLoaded(r[a]) ensures !IsPinnedLoaded(r[b]) {
      assert a > 0;
      assert r[a] == rest[a - 1] && r[b] == rest[b - 1];
    }
  }

  /** With no card showing "📍" on the page (no draft), unpinning sends the
      card to the very end, which keeps the cards pinned-first. */
  lemma UnpinWithoutDraftsGoesLast(s: seq<Child>, i: nat)
    requires i < |s| && s[i].NoteCard? && PinnedFirst(s)
    requires forall k :: 0 <= k < |s| ==> !Unmarked(s[k])
    ensures UnpinMoved(s, i) == Remove(s, i) + [WithPinned(s[i], false)]
    ensures PinnedFirst(UnpinMoved(s, i))
  {
    var rest := Remove(s, i);
    UnpinLandsLast(s, i);
    RemoveKeepsPinnedFirst(s, i);
    var r := UnpinMoved(s, i);
    forall a, b | 0 <= a < b < |r| && IsUnpinnedLoaded(r[a]) ensures !IsPinnedLoaded(r[b]) {
      if b < |rest| { assert r[a] == rest[a] && r[b] == rest[b]; }
    }
  }

  /** A new draft at the top of the wrapper is not a loaded card, so it keeps
      the cards pinned-first. */
  lemma AddDraftKeepsPinnedFirst(s: seq<Child>)
    requires PinnedFirst(s)
    ensures PinnedFirst([NoteCard(NewDraft)] + s)
  {
    var r := [NoteCard(NewDraft)] + s;
    forall a, b | 0 <= a < b < |r| && IsUnpinnedLoaded(r[a]) ensures !IsPinnedLoaded(r[b]) {
      assert r[a] == s[a - 1] && r[b] == s[b - 1];
    }
  }

  // ---- Unpin as written versus as intended ----

  /** As written, unpinning with no draft on the page appends the card after
      the "+" control, which is then no longer the last child. */
  lemma UnpinPassesAddControl(a: Card, b: Card)
    requires a.kind == Loaded && a.glyph == Pushpin && a.pinned
    requires b.kind == Loaded && b.glyph == Pushpin && !b.pinned
    ensures UnpinMoved([NoteCard(a), NoteCard(b), AddControl], 0)
              == [NoteCard(b), AddControl, NoteCard(a.(pinned := false))]
  {
    var s := [NoteCard(a), NoteCard(b), AddControl];
    var rest := Remove(s, 0);
    assert rest == [NoteCard(b), AddControl];
    assert rest[1..] == [AddControl] && rest[1..][1..] == [];
    assert FirstUnmarked(rest) == None;
  }

  /** As written, unpinning while a new draft is at the top of the wrapper
      puts the unpinned card right after the draft, above the notes that are
      still pinned. */
  lemma UnpinJumpsAbovePinned(a: Card, b: Card)
    requires a.kind == Loaded && a.glyph == Pushpin && a.pinned
    requires b.kind == Loaded && b.glyph == Pushpin && b.pinned
    ensures var s := [NoteCard(NewDraft), NoteCard(a), NoteCard(b), AddControl];
      && PinnedFirst(s)
      && UnpinMoved(s, 2) == [NoteCard(NewDraft), NoteCard(b.(pinned := false)), NoteCard(a), AddControl]
      && !PinnedFirst(UnpinMoved(s, 2))
  {
    var s := [NoteCard(NewDraft), NoteCard(a), NoteCard(b), AddControl];
    var rest := Remove(s, 2);
    assert rest == [NoteCard(NewDraft), NoteCard(a), AddControl];
    assert FirstUnmarked(rest) == Some(0);
    var r := UnpinMoved(s, 2);
    assert IsUnpinnedLoaded(r[1]) && IsPinnedLoaded(r[2]);
  }

  /** One past the last loaded pinned card, or 0 when there is none. */
  function AfterLastPinned(s: seq<Child>): (p: nat)
    ensures p <= |s|
    ensures p > 0 ==> IsPinnedLoaded(s[p - 1])
    ensures forall k :: p <= k < |s| ==> !IsPinnedLoaded(s[k])
  {
    if s == [] then 0
    else if IsPinnedLoaded(s[|s| - 1]) then |s|
    else AfterLastPinned(s[..|s| - 1])
  }

  /** The unpin move the handler's comment describes: the card goes right
      after all pinned notes. */
  function UnpinAfterPinned(s: seq<Child>, i: nat): (r: seq<Child>)
    requires i < |s| && s[i].NoteCard?
    ensures |r| == |s|
    ensures var p := AfterLastPinned(Remove(s, i));
      && r[p] == WithPinned(s[i], false)
      && (p > 0 ==> IsPinnedLoaded(r[p - 1]))
      && forall k :: p < k < |r| ==> !IsPinnedLoaded(r[k])
  {
    var rest := Remove(s, i);
    InsertAt(rest, AfterLastPinned(rest), WithPinned(s[i], false))
  }

  /** The intended move keeps the cards pinned-first and the "+" control
      last, and leaves the other children in their relative order. */
  lemma UnpinAfterPinnedKeepsOrder(s: seq<Child>, i: nat)
    requires i < |s| && s[i].NoteCard? && PinnedFirst(s)
    ensures var r, p := UnpinAfterPinned(s, i), AfterLastPinned(Remove(s, i));
      && PinnedFirst(r)
      && r[p] == WithPinned(s[i], false)
      && Remove(r, p) == Remove(s, i)
      && (s[|s| - 1] == AddControl && i < |s| - 1 ==> r[|r| - 1] == AddControl)
  {
    var rest := Remove(s, i);
    RemoveKeepsPinnedFirst(s, i);
    var p := AfterLastPinned(rest);
    var r := UnpinAfterPinned(s, i);
    forall a, b | 0 <= a < b < |r| && IsUnpinnedLoaded(r[a]) ensures !IsPinnedLoaded(r[b]) {
      if b > p {
        assert r[b] == rest[b - 1];
      }
    }
    if s[|s| - 1] == AddControl && i < |s| - 1 {
      assert rest[|rest| - 1] == AddControl;
      assert p < |rest|;
      assert r[|r| - 1] == rest[|rest| - 1];
    }
  }

  /** The intended move on the inputs of the two counterexamples above: with
      no pinned card left the card stays at the top, above "+"; with a draft
      at the top it goes after the note that is still pinned. */
  lemma UnpinAfterPinnedExamples(a: Card, b: Card)
    requires a.kind == Loaded && a.glyph == Pushpin
    requires b.kind == Loaded && b.glyph == Pushpin && !b.pinned
    ensures UnpinAfterPinned([NoteCard(a), NoteCard(b), AddControl], 0)
              == [NoteCard(a.(pinned := false)), NoteCard(b), AddControl]
    ensures a.pinned ==>
              UnpinAfterPinned([NoteCard(NewDraft), NoteCard(a), NoteCard(b.(pinned := true)), AddControl], 2)
                == [NoteCard(NewDraft), NoteCard(a), NoteCard(b), AddControl]
  {
    var s := [NoteCard(a), NoteCard(b), AddControl];
    assert Remove(s, 0) == [NoteCard(b), AddControl];
    assert AfterLastPinned([NoteCard(b)]) == 0;
    assert [NoteCard(b), AddControl][..1] == [NoteCard(b)];
    assert AfterLastPinned(Remove(s, 0)) == 0;
    if a.pinned {
      var t := [NoteCard(NewDraft), NoteCard(a), NoteCard(b.(pinned := true)), AddControl];
      var rest := Remove(t, 2);
      assert rest == [NoteCard(NewDraft), NoteCard(a), AddControl];
      assert rest[..2] == [NoteCard(NewDraft), NoteCard(a)];
      assert AfterLastPinned(rest) == 2;
      assert b.(pinned := true).(pinned := false) == b;
    }
  }
}
