/** The search box: on every input, each note card is shown when its
    lowercased title or lowercased content contains the lowercased query,
    and hidden otherwise. */
module Search {
  import opened Notes
  import opened Text

  /** The visibility rule of the search handler. */
  function Matches(c: Card, query: string): (r: bool)
    ensures query == [] ==> r
    ensures r ==> |query| <= |c.title| || |query| <= |c.content|
  {
    Includes(Lower(c.title), Lower(query)) || Includes(Lower(c.content), Lower(query))
  }

  /** One child after the handler: a card's display follows the rule; the
      "+" control is not a note container and is left alone. */
  function Shown(ch: Child, query: string): Child {
    if ch.NoteCard? then NoteCard(ch.card.(visible := Matches(ch.card, query))) else ch
  }

  /** The wrapper's children after the handler ran with `query`. Only the
      cards' visibility changes: the same children in the same order, each
      card with the same id, title, content, pin state and session, and the
      "+" control untouched. */
  function Searched(s: seq<Child>, query: string): (r: seq<Child>)
    ensures |r| == |s|
    ensures forall k :: 0 <= k < |s| && s[k].NoteCard? ==>
              r[k] == NoteCard(s[k].card.(visible := Matches(s[k].card, query)))
    ensures forall k :: 0 <= k < |s| && !s[k].NoteCard? ==> r[k] == s[k]
    decreases |s|
  {
    if s == [] then [] else [Shown(s[0], query)] + Searched(s[1..], query)
  }

  /** A card is visible after a search exactly when the lowercased query
      occurs in its lowercased title or in its lowercased content. */
  lemma SearchVisibleIff(s: seq<Child>, query: string, k: nat)
    requires k < |s| && s[k].NoteCard?
    ensures Searched(s, query)[k].card.visible <==>
              Occurs(Lower(s[k].card.title), Lower(query)) || Occurs(Lower(s[k].card.content), Lower(query))
  {
    IncludesIff(Lower(s[k].card.title), Lower(query));
    IncludesIff(Lower(s[k].card.content), Lower(query));
  }

  /** An empty query shows every card. */
  lemma EmptyQueryShowsAll(s: seq<Child>)
    ensures forall k :: 0 <= k < |s| && s[k].NoteCard? ==> Searched(s, "")[k].card.visible
  {
    forall k | 0 <= k < |s| && s[k].NoteCard? ensures Matches(s[k].card, "") {
      IncludesEmpty(Lower(s[k].card.title));
    }
  }

  /** The query's case does not matter: a query and its lowercased form give
      the same visibility. */
  lemma SearchCaseInsensitive(s: seq<Child>, query: string)
    ensures Searched(s, Lower(query)) == Searched(s, query)
  {
    LowerIdempotent(query);
  }

  /** Running the same search twice is the same as running it once. */
  lemma SearchIdempotent(s: seq<Child>, query: string)
    ensures Searched(Searched(s, query), query) == Searched(s, query)
  {
  }
}
