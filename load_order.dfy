/** The order `loadAndRenderNotes` gives the notes it fetches: the pinned
    notes, then the unpinned ones, each group in store order, then the "+"
    control. */
module LoadOrder {
  import opened Notes

  /** `notes.filter(n => n.pinned == want)`. */
  function Filter(notes: seq<StoredNote>, want: bool): (r: seq<StoredNote>)
    ensures |r| <= |notes|
    ensures forall k :: 0 <= k < |r| ==> r[k].pinned == want
  {
    if notes == [] then []
    else
      (if notes[0].pinned == want then [notes[0]] else []) + Filter(notes[1..], want)
  }

  /** The notes in the order they are displayed. */
  function DisplayOrder(notes: seq<StoredNote>): (r: seq<StoredNote>)
    ensures |Filter(notes, true)| <= |r|
    ensures forall k :: 0 <= k < |Filter(notes, true)| ==> r[k].pinned
    ensures forall k :: |Filter(notes, true)| <= k < |r| ==> !r[k].pinned
  {
    Filter(notes, true) + Filter(notes, false)
  }

  /** The wrapper's children after a load. */
  function Rendered(notes: seq<StoredNote>): (r: seq<Child>)
    ensures |r| > 0 && r[|r| - 1] == AddControl
    ensures forall k :: 0 <= k < |r| - 1 ==> r[k].NoteCard? && r[k].card.kind == Loaded && r[k].card.timer == Idle
  {
    Cards(DisplayOrder(notes)) + [AddControl]
  }

  /** One loaded card per note, in order. */
  function Cards(notes: seq<StoredNote>): (r: seq<Child>)
    ensures |r| == |notes|
    ensures forall k :: 0 <= k < |r| ==> r[k] == NoteCard(LoadedCard(notes[k]))
  {
    if notes == [] then [] else [NoteCard(LoadedCard(notes[0]))] + Cards(notes[1..])
  }

  lemma {:induction false} FilterAppend(a: seq<StoredNote>, b: seq<StoredNote>, want: bool)
    ensures Filter(a + b, want) == Filter(a, want) + Filter(b, want)
    decreases |a|
  {
    if a == [] {
      assert a + b == b;
    } else {
      assert (a + b)[1..] == a[1..] + b;
      FilterAppend(a[1..], b, want);
    }
  }

  /** Filtering a group that already holds only one kind keeps it, or empties it. */
  lemma {:induction false} FilterOfFiltered(notes: seq<StoredNote>, want: bool, other: bool)
    ensures Filter(Filter(notes, want), other) == if want == other then Filter(notes, want) else []
    decreases |notes|
  {
    if notes != [] {
      FilterOfFiltered(notes[1..], want, other);
      var head := if notes[0].pinned == want then [notes[0]] else [];
      FilterAppend(head, Filter(notes[1..], want), other);
    }
  }

  /** The two groups split the store's list: nothing is added, dropped or
      duplicated. */
  lemma {:induction false} FilterSplit(notes: seq<StoredNote>)
    ensures multiset(Filter(notes, true)) + multiset(Filter(notes, false)) == multiset(notes)
    decreases |notes|
  {
    if notes != [] {
      FilterSplit(notes[1..]);
      assert notes == [notes[0]] + notes[1..];
    }
  }

  /** The displayed order is a permutation of the store's list. */
  lemma DisplayOrderIsPermutation(notes: seq<StoredNote>)
    ensures multiset(DisplayOrder(notes)) == multiset(notes)
    ensures |DisplayOrder(notes)| == |notes|
  {
    FilterSplit(notes);
    assert |multiset(DisplayOrder(notes))| == |multiset(notes)|;
  }

  /** Every pinned note is displayed before every unpinned one. */
  lemma DisplayOrderPinnedFirst(notes: seq<StoredNote>)
    ensures forall a, b :: 0 <= a < b < |DisplayOrder(notes)| && !DisplayOrder(notes)[a].pinned
              ==> !DisplayOrder(notes)[b].pinned
  {
  }

  /** Within each group the displayed order is the store order: the displayed
      list, restricted to either group, is the store's list restricted to it. */
  lemma DisplayOrderStable(notes: seq<StoredNote>, want: bool)
    ensures Filter(DisplayOrder(notes), want) == Filter(notes, want)
  {
    FilterAppend(Filter(notes, true), Filter(notes, false), want);
    FilterOfFiltered(notes, true, want);
    FilterOfFiltered(notes, false, want);
  }

  /** After a load the wrapper holds one card per stored note, and the "+"
      control is its last child, after every card. */
  lemma RenderedShape(notes: seq<StoredNote>)
    ensures |Rendered(notes)| == |notes| + 1
    ensures Rendered(notes)[|notes|] == AddControl
    ensures forall k :: 0 <= k < |notes| ==> Rendered(notes)[k].NoteCard?
    ensures AllWellFormed(Rendered(notes))
  {
    DisplayOrderIsPermutation(notes);
  }

  /** The store's example: [A (pinned), B, C (pinned)] is shown as [A, C, B]. */
  lemma LoadExample(a: StoredNote, b: StoredNote, c: StoredNote)
    requires a.pinned && !b.pinned && c.pinned
    ensures DisplayOrder([a, b, c]) == [a, c, b]
  {
    FilterOne(a); FilterOne(b); FilterOne(c);
    assert [a, b, c] == [a] + ([b] + [c]);
    FilterAppend([b], [c], true);
    FilterAppend([b], [c], false);
    FilterAppend([a], [b] + [c], true);
    FilterAppend([a], [b] + [c], false);
  }

  lemma FilterOne(n: StoredNote)
    ensures Filter([n], n.pinned) == [n] && Filter([n], !n.pinned) == []
  {
    assert [n][1..] == [];
  }
}
