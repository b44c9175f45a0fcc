/** The entities of the notes client: note records as the store returns
    them, the note cards on the page with the per-card session state that
    their event handlers keep in closures, the children of the notes
    wrapper, and the remote calls and toasts the client produces. */
module Notes {
  import opened Wrappers

  /** A note id assigned by the remote store. */
  type Id = nat

  /** A note record as returned by the store's `getNotes`. */
  datatype StoredNote = StoredNote(id: Id, title: string, text: string, pinned: bool)

  /** The text of a card's pin button: "📌" (every loaded card, and a draft
      after it was pinned) or "📍" (a new draft). */
  datatype Glyph = Pushpin | RoundPushpin

  /** A debounce timer: nothing scheduled, or a save due at `deadline`
      (milliseconds). */
  datatype Timer = Idle | Pending(deadline: int)

  /** Which handler set a card has: one rendered from the store
      (`createNoteElement`) or one made by the "+" control (`createNewNote`),
      with its `created` flag. */
  datatype Kind = Loaded | Draft(created: bool)

  /** A note card. `id` is the container's `dataset.id` (for a draft also its
      `noteId`), `title` and `content` the values of its input and textarea,
      `visible` its `style.display`, and `pinned` and `timer` the state its
      handlers capture. */
  datatype Card = Card(
    id: Option<Id>,
    title: string,
    content: string,
    glyph: Glyph,
    pinned: bool,
    visible: bool,
    timer: Timer,
    kind: Kind)

  /** A child of the notes wrapper: a note card or the "+" add control. */
  datatype Child = NoteCard(card: Card) | AddControl

  /** A remote call on the store actor, with its arguments in the order the
      client passes them. */
  datatype Call =
    | GetNotes
    | Create(title: string, content: string)
    | Update(id: Id, content: string, title: string)
    | Delete(id: Id)
    | SetPinned(id: Id, pinned: bool)

  /** The transient notifications the core raises. */
  datatype Toast = SaveFailed | PinFailed | NoteDeleted

  /** Quiet period before an existing note is saved (ms). */
  const ExistingDelay: nat := 1800
  /** Quiet period before a draft is created or saved (ms). */
  const DraftDelay: nat := 650

  function Delay(k: Kind): nat {
    if k.Loaded? then ExistingDelay else DraftDelay
  }

  /** What the handlers of a card guarantee about its state: a loaded card
      has an id and shows "📌"; a draft has an id exactly when it has been
      created, and its glyph follows its `pinned` flag. */
  predicate WellFormed(c: Card) {
    match c.kind
    case Loaded => c.id.Some? && c.glyph == Pushpin
    case Draft(created) =>
      (created <==> c.id.Some?) && c.glyph == (if c.pinned then Pushpin else RoundPushpin)
  }

  /** Every card among `s` is well formed. */
  predicate AllWellFormed(s: seq<Child>) {
    forall k :: 0 <= k < |s| && s[k].NoteCard? ==> WellFormed(s[k].card)
  }

  /** The card `createNoteElement` renders for a stored note. */
  function LoadedCard(n: StoredNote): (c: Card)
    ensures WellFormed(c) && c.kind == Loaded && c.visible && c.timer == Idle
    ensures c.id == Some(n.id) && c.title == n.title && c.content == n.text && c.pinned == n.pinned
  {
    Card(Some(n.id), n.title, n.text, Pushpin, n.pinned, true, Idle, Loaded)
  }

  /** The empty card `createNewNote` puts at the top of the wrapper. */
  const NewDraft: Card := Card(None, "", "", RoundPushpin, false, true, Idle, Draft(false))
}
