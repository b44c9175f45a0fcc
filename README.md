# MindVault notes client: a verified model of its page logic

MindVault's browser client shows a user's notes as cards inside a notes
wrapper, with a "+" control that opens a new draft card. The store behind
it is a remote actor reached with `getNotes`, `create`, `update`, `delete`
and `setPinned`. This project models the logic under the page:

- **Load order**: the fetched notes are split into pinned and unpinned
  ones. Pinned notes come first. Each group keeps the store order. The "+"
  control goes last.
- **Auto-save**: every input restarts a debounce timer: 1800 ms for a
  loaded note, 650 ms for a draft. When the timer fires, the title is
  trimmed.
  - A blank title issues nothing.
  - A draft not yet created issues `create`; a successful `create` binds
    the returned id and marks the draft created.
  - Everything else issues `update(id, content, trimmedTitle)`.
- **Pin reorder**: `setPinned` is called first. Only when it succeeds does
  the card's flag flip and the card move.
  - Pinning moves the card to the front.
  - Unpinning moves it right after the first other card whose pin button
    does not show "📌". When there is no such card, it goes to the end of
    the wrapper.
  - A draft's pin button does nothing until the draft has an id. After
    that it reloads the whole list.
- **Delete and discard**: an uncreated draft is discarded with no remote
  call. Any other card is removed only after the user confirms and
  `delete` returns.
- **Search**: a card is shown exactly when its lowercased title or content
  contains the lowercased query.
- **Export**: each card becomes `"Title: " + title + "\n" + content + "\n\n"`.
  The pieces are joined in display order. With no wrapper or no card there
  is nothing to export.

Layout:

- The pure modules are `Text` (`toLowerCase`, `trim`, `includes`), `Notes`
  (the entities), `LoadOrder`, `PinOrder`, `AutoSave`, `Search` and
  `Export`.
- `Board.NotesBoard` is a class whose fields are the ones the handlers
  change. `children` holds the wrapper's children in document order;
  `calls` logs the remote calls issued; `toasts` logs the toasts shown.
  Each handler is one method. Its `ensures` ties the new state to the pure
  functions, and the lemmas state the properties of those functions.

The store, the clock and the user's choices are inputs:

- every remote call's outcome (`ok`, and the id `create` returns);
- the list `getNotes` returns;
- the time of each input;
- the answer to the "Delete this note?" confirmation.

A timer firing, together with its remote call and that call's answer, is
one atomic step. Debounce timing is proved separately on a trace of input
times: `AutoSave.Run` replays `clearTimeout`/`setTimeout`, and `AutoSave.Fired`
is the declarative description it is proved equal to. An input that arrives
exactly at a deadline is taken to come after that save has fired.

Unlike the save and pin handlers, the delete handlers (main.js:189-195 and
295-300) have no `catch`: a rejected `delete` leaves the page unchanged and
shows no toast. Likewise a rejected `getNotes` at sign-in leaves the wrapper
empty, without the "+" control.

## Model

| member | source | states |
|---|---|---|
| `Text.Lower` | src/mindWault_frontend/src/features.js:25 | lowercasing keeps the length and lowers each ASCII letter in place |
| `Text.LowerIdempotent` | src/mindWault_frontend/src/features.js:25 | lowercasing an already lowercased string changes nothing |
| `Text.Trim` | src/mindWault_frontend/src/main.js:152 | the trimmed title neither starts nor ends with white space |
| `Text.TrimStart` | src/mindWault_frontend/src/main.js:152 | the result is a suffix of the input; everything dropped before it is white space |
| `Text.TrimEnd` | src/mindWault_frontend/src/main.js:152 | the result is a prefix of the input; everything dropped after it is white space |
| `Text.TrimEmptyIff` | src/mindWault_frontend/src/main.js:152-153 | a title trims to nothing exactly when it is all white space, so the save guard skips exactly those titles |
| `Text.IncludesIff` | src/mindWault_frontend/src/features.js:31 | `includes` holds exactly when the needle occurs in the text at some index |
| `Text.Includes` | src/mindWault_frontend/src/features.js:31 | the empty needle is always found, and a found needle is no longer than the text |
| `Text.IncludesEmpty` | src/mindWault_frontend/src/features.js:31 | the empty string is included in every string |
| `Notes.LoadedCard` | src/mindWault_frontend/src/main.js:171-200 | a rendered note keeps the stored id, title, text and pinned flag; it shows "📌", is visible and has no pending save |
| `LoadOrder.Filter` | src/mindWault_frontend/src/main.js:116-117 | each group holds only notes of its kind and is no longer than the store's list |
| `LoadOrder.DisplayOrder` | src/mindWault_frontend/src/main.js:115-122 | the pinned notes take the first places, as many as there are pinned notes; every later place holds an unpinned note |
| `LoadOrder.Rendered` | src/mindWault_frontend/src/main.js:121-130 | after a load the last child is the "+" control, and every child before it is a loaded card with no pending save |
| `LoadOrder.Cards` | src/mindWault_frontend/src/main.js:121-122 | one loaded card per note, at the same position |
| `LoadOrder.FilterSplit` | src/mindWault_frontend/src/main.js:115-117 | the pinned and unpinned groups together hold exactly the fetched notes, with multiplicity |
| `LoadOrder.DisplayOrderIsPermutation` | src/mindWault_frontend/src/main.js:115-122 | the displayed notes are a permutation of the fetched ones: nothing added, dropped or duplicated |
| `LoadOrder.DisplayOrderPinnedFirst` | src/mindWault_frontend/src/main.js:121-122 | no unpinned note is displayed before a pinned one |
| `LoadOrder.DisplayOrderStable` | src/mindWault_frontend/src/main.js:116-122 | restricted to either group, the displayed order is the store order |
| `LoadOrder.RenderedShape` | src/mindWault_frontend/src/main.js:121-130 | after a load the wrapper holds one card per note followed by the "+" control, which is its last child |
| `LoadOrder.LoadExample` | src/mindWault_frontend/src/main.js:115-122 | notes [A pinned, B, C pinned] are displayed as [A, C, B] |
| `PinOrder.FirstUnmarked` | src/mindWault_frontend/src/main.js:217 | the result is the first child that is a card whose pin button lacks "📌", or none when no child is |
| `PinOrder.PinMoved` | src/mindWault_frontend/src/main.js:210-211 | the card, with its flag set, becomes the first child; the remaining children are the others in their previous order |
| `PinOrder.UnpinMoved` | src/mindWault_frontend/src/main.js:216-222 | the number of children is kept. The card, with its flag cleared, lands right after the first other card lacking "📌", or as the last child when there is none |
| `PinOrder.PinMovesToFront` | src/mindWault_frontend/src/main.js:210-211 | after a pin the card, flag set, is first; the other children keep their relative order; nothing else is added or lost |
| `PinOrder.UnpinMovesCard` | src/mindWault_frontend/src/main.js:212-222 | after an unpin the card, flag cleared, sits at the unpin slot; the other children keep their relative order; nothing else is added or lost |
| `PinOrder.UnpinLandsAfterFirstUnmarked` | src/mindWault_frontend/src/main.js:217-219 | when another card lacks "📌", the unpinned card lands right after the first such card |
| `PinOrder.UnpinLandsLast` | src/mindWault_frontend/src/main.js:220-221 | when every other card shows "📌", the unpinned card becomes the wrapper's last child |
| `PinOrder.RenderedPinnedFirst` | src/mindWault_frontend/src/main.js:121-130 | after a load no loaded unpinned card precedes a loaded pinned one |
| `PinOrder.RemoveKeepsPinnedFirst` | src/mindWault_frontend/src/main.js:192 | removing a card keeps the pinned-first order |
| `PinOrder.PinKeepsPinnedFirst` | src/mindWault_frontend/src/main.js:210-211 | pinning keeps the pinned-first order |
| `PinOrder.UnpinWithoutDraftsGoesLast` | src/mindWault_frontend/src/main.js:213-222 | with only loaded cards (all showing "📌"), unpinning appends the card at the very end, which keeps the pinned-first order (every loaded card shows "📌", main.js line 199) |
| `PinOrder.AddDraftKeepsPinnedFirst` | src/mindWault_frontend/src/main.js:276 | a new draft at the top keeps the pinned-first order among loaded cards |
| `PinOrder.UnpinPassesAddControl` | src/mindWault_frontend/src/main.js:220-221 | as written, unpinning A in [A pinned, B, +] gives [B, +, A]: the "+" control is no longer last |
| `PinOrder.UnpinJumpsAbovePinned` | src/mindWault_frontend/src/main.js:217-219 | as written, unpinning B in [draft, A pinned, B pinned, +] gives [draft, B, A, +], which breaks the pinned-first order |
| `PinOrder.AfterLastPinned` | src/mindWault_frontend/src/main.js:213-215 | the slot is right after the last loaded pinned card, or 0 when there is none |
| `PinOrder.UnpinAfterPinned` | src/mindWault_frontend/src/main.js:213 | the intended move: the card, flag cleared, lands right after a pinned loaded card (or first when none remains), and no pinned loaded card follows it |
| `PinOrder.UnpinAfterPinnedKeepsOrder` | src/mindWault_frontend/src/main.js:213 | the intended unpin move keeps the pinned-first order and the "+" control last; the other children keep their relative order |
| `PinOrder.UnpinAfterPinnedExamples` | src/mindWault_frontend/src/main.js:213 | the intended move on the two counterexamples' inputs: [A pinned, B, +] gives [A, B, +], and [draft, A pinned, B pinned, +] with B unpinned gives [draft, A, B, +] |
| `AutoSave.RunMatchesFired` | src/mindWault_frontend/src/main.js:162-165 | replaying clear-and-rearm on every input fires exactly the saves of the declarative description: one per input not followed by another within the delay |
| `AutoSave.BurstFiresOnce` | src/mindWault_frontend/src/main.js:162-165 | inputs each closer than the delay to the previous one produce a single save, the delay after the last input (the draft timer at main.js lines 282-284 is the same) |
| `AutoSave.QuietGapSplits` | src/mindWault_frontend/src/main.js:162-165 | bursts separated by at least the delay are saved separately |
| `AutoSave.Run` | src/mindWault_frontend/src/main.js:162-165 | replaying inputs never retracts a save that already fired. It fires at most one save per input, plus one for a timer already pending, and at least one once any input has come or a timer is pending |
| `AutoSave.Fire` | src/mindWault_frontend/src/main.js:282-307 | the card stays well formed, and its title, content, flag and glyph are untouched. A trimmed-empty title issues nothing and changes only the timer; any other title issues exactly one call. A toast appears exactly when that call fails, and it is "Save failed" (the loaded card's save, main.js lines 151-159, is the `update` branch) |
| `AutoSave.FireCall` | src/mindWault_frontend/src/main.js:285-302 | the call uses the values at firing time: `create(trimmed, content)` for an uncreated draft, `update(id, content, trimmed)` for any other card (and main.js lines 152-155 for a loaded card) |
| `AutoSave.FireBindsIdOnCreate` | src/mindWault_frontend/src/main.js:289-292 | both directions: a successful `create` (uncreated draft, non-blank title, store accepts) makes the draft created and binds the returned id; conversely, a card's kind or id changes only that way |
| `AutoSave.Edit` | src/mindWault_frontend/src/main.js:162-168 | an input stores the new field values and re-arms the timer at now + 1800 (loaded card) or now + 650 (draft); nothing else changes (main.js lines 282-284 and 310-311 for a draft) |
| `AutoSave.Step` | src/mindWault_frontend/src/main.js:282-307 | one event issues at most one call and keeps the card well formed |
| `AutoSave.Session` | src/mindWault_frontend/src/main.js:278-311 | a session of events keeps the card well formed: a draft has an id exactly when it is created |
| `AutoSave.CreatedNeverCreates` | src/mindWault_frontend/src/main.js:289-303 | once a draft is created it stays created with the same id, and every later call is an `update` of that id |
| `AutoSave.LoadedOnlyUpdates` | src/mindWault_frontend/src/main.js:151-155 | a loaded card keeps its id and only ever issues `update` of that id |
| `AutoSave.FailedCreatesLeaveDraft` | src/mindWault_frontend/src/main.js:288-306 | while every `create` fails, the draft stays uncreated with no id and issues nothing but `create` |
| `AutoSave.BurstSavesLastValues` | src/mindWault_frontend/src/main.js:282-303 | a burst of inputs followed by one firing issues at most one call, carrying the last input's values (nothing if that title is blank) |
| `AutoSave.SessionAppend` | src/mindWault_frontend/src/main.js:278-311 | two event sequences run one after the other issue the first's calls followed by the second's, from the card the first leaves |
| `AutoSave.FirstSaveCreates` | src/mindWault_frontend/src/main.js:282-293 | an uncreated draft's first save with a non-blank title, accepted by the store, issues `create(trimmed, content)` and leaves the draft created with the returned id |
| `AutoSave.CreatedSavesUpdate` | src/mindWault_frontend/src/main.js:301-303 | once created, an input followed by a firing issues `update` of the draft's id with that input's values |
| `AutoSave.CreateThenUpdate` | src/mindWault_frontend/src/main.js:282-307 | a draft typed, saved, typed again and saved again issues exactly `create(trimmed title, content)` and then `update(returned id, new content, new trimmed title)` |
| `Search.Searched` | src/mindWault_frontend/src/features.js:28-32 | search changes only visibility: same children in the same order, each card equal except for its display flag, the "+" control untouched |
| `Search.Matches` | src/mindWault_frontend/src/features.js:29-31 | an empty query matches every card, and a match needs a title or content at least as long as the query |
| `Search.SearchVisibleIff` | src/mindWault_frontend/src/features.js:25-31 | a card is visible exactly when the lowercased query occurs in its lowercased title or lowercased content |
| `Search.EmptyQueryShowsAll` | src/mindWault_frontend/src/features.js:25-31 | an empty query shows every card |
| `Search.SearchCaseInsensitive` | src/mindWault_frontend/src/features.js:25 | a query and its lowercased form give identical results |
| `Search.SearchIdempotent` | src/mindWault_frontend/src/features.js:24-32 | running a search twice is the same as running it once |
| `Export.CardFields` | src/mindWault_frontend/src/features.js:48 | the export reads no more entries than children, and none exactly when no child is a card |
| `Export.Entry` | src/mindWault_frontend/src/features.js:51 | each entry is ten characters longer than its title and content together |
| `Export.ExportText` | src/mindWault_frontend/src/features.js:44-56 | text is exported only when there is a wrapper, and it is never shorter than one entry's fixed ten characters |
| `Export.JoinedCardFields` | src/mindWault_frontend/src/features.js:48-56 | the joined entries equal the listing read straight off the children: each card's own title and content in the template, in document order |
| `Export.ExportListsCards` | src/mindWault_frontend/src/features.js:44-56 | with a wrapper present, the export is nothing exactly when it holds no card, and otherwise that listing |
| `Export.ExportNoneIff` | src/mindWault_frontend/src/features.js:44-54 | nothing is exported exactly when the wrapper is missing or holds no card |
| `Export.JoinedAppend` | src/mindWault_frontend/src/features.js:56 | joining is in-order concatenation of the entries |
| `Export.ExportConcat` | src/mindWault_frontend/src/features.js:48-56 | the text of two runs of children is the first's text followed by the second's; the "+" control contributes nothing |
| `Export.JoinedLength` | src/mindWault_frontend/src/features.js:48-56 | the exported length is the sum over cards of title length + content length + 10 |
| `Export.MissingFieldsAreEmpty` | src/mindWault_frontend/src/features.js:49-50 | a missing title or content exports as the empty string (the fallback to ""; every card the client builds has both fields, so the model never produces a missing one) |
| `Export.EntryShape` | src/mindWault_frontend/src/features.js:51 | each entry starts with "Title: " and the title, then a newline, and ends with a blank line |
| `Board.NotesBoard.constructor` | src/mindWault_frontend/src/main.js:107-131 | the first load creates the wrapper, having called `getNotes` once with no toast. If the call succeeds, the wrapper holds the load order; if it is rejected, the wrapper stays empty |
| `Board.NotesBoard.Load` | src/mindWault_frontend/src/main.js:107-131 | the wrapper is emptied and exactly one `getNotes` is logged. On success it is refilled with the pinned cards, then the unpinned ones, then "+". On a rejection it stays empty, with no "+" control and no toast |
| `Board.NotesBoard.AddNote` | src/mindWault_frontend/src/main.js:238-276 | an empty uncreated draft showing "📍" is put first; nothing else changes |
| `Board.NotesBoard.Input` | src/mindWault_frontend/src/main.js:162-168 | only the edited card changes: new field values and a restarted timer (main.js lines 282-284 and 310-311 for a draft) |
| `Board.NotesBoard.Fire` | src/mindWault_frontend/src/main.js:282-307 | the firing card is replaced by its post-save state; the call and any toast are logged; nothing else changes (main.js lines 151-159 for a loaded card) |
| `Board.NotesBoard.TogglePin` | src/mindWault_frontend/src/main.js:202-227 | `setPinned(id, !pinned)` is logged first. On success the children are reordered by the pin or unpin move. On failure the children are unchanged and only a toast is added |
| `Board.NotesBoard.ToggleDraftPin` | src/mindWault_frontend/src/main.js:262-272 | without an id nothing happens. Otherwise `setPinned` is logged; failure gives only "Failed to pin note". Success logs `getNotes` and reloads the list; if that reload is rejected, the wrapper is left empty and the same toast is shown |
| `Board.NotesBoard.DeleteOrDiscard` | src/mindWault_frontend/src/main.js:189-195 | an uncreated draft is discarded with no call. Otherwise nothing happens without confirmation. Once confirmed, `delete(id)` is logged, and the card is removed only if the call returns; a loaded card's removal also shows "Note deleted" (the draft's discard is main.js line 255, a created draft's delete lines 295-300) |
| `Board.NotesBoard.ApplySearch` | src/mindWault_frontend/src/features.js:24-33 | the children become their searched form; calls and toasts are untouched |

## Findings

| source | as written | input that shows it | evidently intended | confidence | as-written member | corrected member |
|---|---|---|---|---|---|---|
| src/mindWault_frontend/src/main.js:213-222 | unpin appends the card to the wrapper when no other card lacks "📌", which is always the case with only loaded cards | unpin A in [A pinned, B, +] gives [B, +, A] | the comment says "Move unpinned note after all pinned notes": with no pinned note left, A stays first, giving [A, B, +], and "+" stays last | not executed; high | `PinOrder.UnpinPassesAddControl` | `PinOrder.UnpinAfterPinnedKeepsOrder` |
| src/mindWault_frontend/src/main.js:216-219 | unpin inserts after the first other card lacking "📌", and only a new draft lacks it | unpin B in [draft, A pinned, B pinned, +] gives [draft, B, A, +] | the card goes after all pinned notes: [draft, A, B, +] | not executed; high | `PinOrder.UnpinJumpsAbovePinned` | `PinOrder.UnpinAfterPinnedKeepsOrder` |

Each finding has two members:

- The as-written move is `PinOrder.UnpinMoved`. `Board.NotesBoard.TogglePin`
  uses it, because the board models the code as it runs.
- The corrected move is `PinOrder.UnpinAfterPinned`, and its properties are
  proved in `PinOrder.UnpinAfterPinnedKeepsOrder`.

`lastPinnedIndex` (main.js:215) is computed but never used, so the model
does not include it.

## Left out

- Sign-in and the actor (main.js:40-84) are left out. This covers `AuthClient`, `HttpAgent`, `createActor`, the identity providers, and logout with reload. The store is an oracle whose answers are parameters.
- DOM construction, CSS classes, placeholders, the random welcome phrase and the dropdown menu are presentation.
- Toast display timing and the "Saved" indicator with its fade (main.js:136-149, features.js:2-16) are presentation. A successful save shows no toast in the model.
- Dark mode and `localStorage` (main.js:86-91, features.js:37-41) are left out.
- The "Notes exported!" toast (main.js:95) is left out.
- Export's Blob, object URL and download link (features.js:56-64) are I/O. Only the produced text is modelled. The "No notes to export." alert is the `None` result.
- `toggleSearchBarVisibility` is not part of this model.
- The search handler's guard for a missing search box (features.js:22) is left out. The model takes the box to be present.
- Overlapping remote calls are not modelled. For example, two `create` calls cannot race before `created` flips: each firing and its answer form one atomic step.
- `Text.Lower`: only ASCII letters are lowercased; full Unicode `toLowerCase` is not modelled.
- BigInt conversions of ids are left out. Ids are natural numbers.
- `Board.NotesBoard.Fire` does not check that a clock has reached the timer's deadline, because the board has no clock. The timing is stated separately by `AutoSave.Run` and `AutoSave.Fired`.
- `Board.NotesBoard.DeleteOrDiscard` removes a card together with its pending timer, but no handler clears that timer in the code. Two consequences are not modelled:
  - A timer armed before a delete still fires afterwards and sends `update` for the deleted id.
  - A draft discarded within 650 ms of typing still fires `create` (main.js:255, 290), so the discarded note is stored anyway.
- `Board.NotesBoard.ToggleDraftPin` and `Board.NotesBoard.Load` drop the cards they clear together with their pending timers. In the code, the reload (main.js:113) detaches the cards, but their timers still fire `update`, or `create` for an uncreated draft, with the values typed before the reload.
