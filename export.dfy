/** "Export notes": every note card, in display order, becomes
    "Title: " + title + "\n" + content + "\n\n", and the pieces are joined;
    with no wrapper or no card there is nothing to export. */
module Export {
  import opened Wrappers
  import opened Notes

  /** What a card's `querySelector("input")?.value` and
      `querySelector("textarea")?.value` yield: nothing when the element is
      missing. Every note container the client builds holds both elements,
      so `CardFields` always yields `Some`; `None` is kept only to state the
      `|| ""` fallback (see `MissingFieldsAreEmpty`). */
  datatype Fields = Fields(title: Option<string>, content: Option<string>)

  /** `value || ""`: a missing value reads as the empty string. */
  function OrEmpty(v: Option<string>): string {
    v.GetOr("")
  }

  /** The text one card contributes. */
  function Entry(f: Fields): (e: string)
    ensures |e| == |OrEmpty(f.title)| + |OrEmpty(f.content)| + 10
  {
    "Title: " + OrEmpty(f.title) + "\n" + OrEmpty(f.content) + "\n\n"
  }

  /** The fields of the wrapper's note containers, in document order. */
  function CardFields(s: seq<Child>): (r: seq<Fields>)
    ensures |r| <= |s|
    ensures r == [] <==> forall k :: 0 <= k < |s| ==> !s[k].NoteCard?
    decreases |s|
  {
    if s == [] then []
    else (if s[0].NoteCard? then [Fields(Some(s[0].card.title), Some(s[0].card.content))] else [])
         + CardFields(s[1..])
  }

  /** `entries.map(Entry).join("")`. */
  function Joined(fs: seq<Fields>): string
    decreases |fs|
  {
    if fs == [] then "" else Entry(fs[0]) + Joined(fs[1..])
  }

  /** The exported text, or `None` where the source raises the alert
      "No notes to export." */
  function ExportText(wrapper: Option<seq<Child>>): (r: Option<string>)
    ensures r.Some? ==> wrapper.Some?
    ensures r.Some? ==> |r.value| >= 10
  {
    if wrapper.None? then None
    else
      var fs := CardFields(wrapper.value);
      if fs == [] then None else Some(Joined(fs))
  }

  /** The export is empty exactly when the wrapper is missing or holds no
      note card. */
  lemma ExportNoneIff(wrapper: Option<seq<Child>>)
    ensures ExportText(wrapper).None? <==>
              wrapper.None? || forall k :: 0 <= k < |wrapper.value| ==> !wrapper.value[k].NoteCard?
  {
  }

  /** The exported text read straight off the children: for every note
      card, in document order, "Title: ", its title, a newline, its content
      and a blank line; every other child contributes nothing. */
  function Listing(s: seq<Child>): string
    decreases |s|
  {
    if s == [] then ""
    else
      (if s[0].NoteCard? then "Title: " + s[0].card.title + "\n" + s[0].card.content + "\n\n" else "")
      + Listing(s[1..])
  }

  lemma {:induction false} JoinedCardFields(s: seq<Child>)
    ensures Joined(CardFields(s)) == Listing(s)
    decreases |s|
  {
    if s != [] {
      var tail := CardFields(s[1..]);
      JoinedCardFields(s[1..]);
      if s[0].NoteCard? {
        var c := s[0].card;
        var f := Fields(Some(c.title), Some(c.content));
        assert CardFields(s) == [f] + tail;
        assert ([f] + tail)[0] == f && ([f] + tail)[1..] == tail;
        assert Joined([f] + tail) == Entry(f) + Joined(tail);
        assert Entry(f) == "Title: " + c.title + "\n" + c.content + "\n\n";
      } else {
        assert CardFields(s) == tail;
        assert Listing(s) == "" + Listing(s[1..]);
      }
    }
  }

  /** The export of a wrapper holding at least one card is, card by card in
      document order, each card's own title and content in the template. */
  lemma ExportListsCards(s: seq<Child>)
    ensures ExportText(Some(s)) ==
              if forall k :: 0 <= k < |s| ==> !s[k].NoteCard? then None else Some(Listing(s))
  {
    JoinedCardFields(s);
  }

  /** Exporting is in-order concatenation: the text of two runs of children
      is the text of the first followed by the text of the second. */
  lemma {:induction false} JoinedAppend(a: seq<Fields>, b: seq<Fields>)
    ensures Joined(a + b) == Joined(a) + Joined(b)
    decreases |a|
  {
    if a == [] {
      assert a + b == b;
    } else {
      assert (a + b)[1..] == a[1..] + b;
      JoinedAppend(a[1..], b);
    }
  }

  lemma {:induction false} CardFieldsAppend(a: seq<Child>, b: seq<Child>)
    ensures CardFields(a + b) == CardFields(a) + CardFields(b)
    decreases |a|
  {
    if a == [] {
      assert a + b == b;
    } else {
      var ab := a + b;
      assert ab[0] == a[0] && ab[1..] == a[1..] + b;
      CardFieldsAppend(a[1..], b);
      var head := if a[0].NoteCard? then [Fields(Some(a[0].card.title), Some(a[0].card.content))] else [];
      assert CardFields(ab) == head + CardFields(a[1..] + b);
      assert CardFields(a) == head + CardFields(a[1..]);
    }
  }

  /** The "+" control and other non-card children contribute nothing, and
      the text follows the display order of the cards. */
  lemma ExportConcat(a: seq<Child>, b: seq<Child>)
    ensures Joined(CardFields(a + b)) == Joined(CardFields(a)) + Joined(CardFields(b))
  {
    CardFieldsAppend(a, b);
    JoinedAppend(CardFields(a), CardFields(b));
  }

  /** The size of each entry: the title, the content and ten fixed
      characters ("Title: ", one newline, two newlines). */
  function Size(fs: seq<Fields>): nat
    decreases |fs|
  {
    if fs == [] then 0 else |OrEmpty(fs[0].title)| + |OrEmpty(fs[0].content)| + 10 + Size(fs[1..])
  }

  lemma {:induction false} JoinedLength(fs: seq<Fields>)
    ensures |Joined(fs)| == Size(fs)
    decreases |fs|
  {
    if fs != [] {
      JoinedLength(fs[1..]);
    }
  }

  /** A missing title or content exports as the empty string. */
  lemma MissingFieldsAreEmpty(title: Option<string>, content: Option<string>)
    ensures Entry(Fields(None, content)) == Entry(Fields(Some(""), content))
    ensures Entry(Fields(title, None)) == Entry(Fields(title, Some("")))
    ensures Entry(Fields(None, None)) == "Title: \n\n\n"
  {
  }

  /** Each entry begins with "Title: " followed by the title, and ends with a
      blank line. */
  lemma EntryShape(f: Fields)
    ensures var e := Entry(f);
      && e[..7] == "Title: "
      && e[7..7 + |OrEmpty(f.title)|] == OrEmpty(f.title)
      && e[7 + |OrEmpty(f.title)|] == '\n'
      && e[|e| - 2..] == "\n\n"
  {
  }
}
