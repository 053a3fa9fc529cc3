# Responsive notes editor — a Dafny model of its note-list state machine

The editor is one React component, `App`. It keeps three pieces of state:

- the list of notes, each an `{id, content}` record, in insertion order;
- `editNoteId`, the id of the note being edited, or null in add mode;
- the one form field, `content`, where a note's text is typed.

Four handlers change that state:

- Submit adds a note in add mode, or saves the edited note in edit mode.
- The edit button of a card puts its note into the field.
- The delete button of a card removes its note.
- The Cancel button leaves edit mode.

Two viewport predicates, "mobile" and "tablet", pick the layout.

The model has three modules:

- `NoteList` (`note_list.dfy`) holds the list computations the handlers use. The `map` that saves, the `filter` that deletes and the `find` that looks a note up are each a recursive function on `seq<Note>`, with lemmas about it. The append that adds is the concatenation `notes + [Note(newId, text)]` inside `Submit`; the lemma `AppendFreshKeepsDistinct` is about it.
- `NotesApp` (`app.dfy`) holds the class `App`. Its fields are `notes`, `editNoteId` and `formContent`, and each handler is a method on them. Its invariant `Valid()` says that note ids are pairwise distinct and never empty, and that no note has empty content. `Session` is a client that replays an editing session against the methods' contracts alone.
- `Layout` (`layout.dfy`) holds the two viewport predicates and the three ternaries that choose the input rows, the card width and the container width.

Modelling choices:

- `uuidv4()` becomes the parameter `newId` of `Submit`. In add mode it must be non-empty and not already in use.
- The field's `required` attribute becomes the precondition `formContent != ""` of `Submit`.
- Typing into the field becomes the method `Type`. This is the change event that the form library registers on the field.
- Both `reset()` (add branch) and `reset({content: ''})` leave the field empty.
- The submit handler tests `editNoteId` for truthiness. Ids are never the empty string, so that test is the same as `editNoteId.Some?`. `Valid()` keeps the cursor non-empty for this reason.
- Deleting the note being edited clears neither the cursor nor the field (src/App.js:72-75). A later save matches no note: it clears the cursor and the field and leaves the list as it was (`SaveAfterRemoveIsNoop`, and the end of `Session`).
- The handlers return no errors. A missing id in the edit handler would be a runtime fault when `.content` is read (src/App.js:67-69), so `BeginEdit` requires the id to be present.
- A medium viewport keeps the 4-row field of a wide one (`rows={isMobile ? 2 : 4}`, src/App.js:89).

## Model

| member | source | states |
|---|---|---|
| `NoteList.SaveContent` | src/App.js:50-52 | saving keeps the length, the order and every id; a note takes the new text exactly when its id is the cursor, and every other note is unchanged |
| `NoteList.SaveKeepsIds` | src/App.js:50-51 | the spread `...note` keeps the list of ids identical, so distinct ids stay distinct |
| `NoteList.SaveAbsent` | src/App.js:49-54 | saving under an id no note carries returns the list unchanged |
| `NoteList.AppendFreshKeepsDistinct` | src/App.js:57-61 | appending a note under a fresh id keeps ids pairwise distinct and appends exactly that id |
| `NoteList.Removed` | src/App.js:73 | the `filter` itself; its own contract gives only that the result is no longer than the list, and `RemovedCounts` with `RemovedConcat` pin it as the filter that keeps exactly the notes whose id differs, in order |
| `NoteList.RemovedCounts` | src/App.js:73 | the filter drops every note carrying the id and keeps every other note with its multiplicity |
| `NoteList.RemovedIds` | src/App.js:73 | after a delete the id is gone, and no new id appears |
| `NoteList.RemovedConcat` | src/App.js:73 | deleting distributes over concatenation, so the surviving notes keep their relative order |
| `NoteList.RemovedAbsent` | src/App.js:73 | deleting an absent id leaves the list unchanged |
| `NoteList.RemovedIdempotent` | src/App.js:72-75 | deleting twice equals deleting once |
| `NoteList.RemovedKeepsDistinct` | src/App.js:73 | deleting keeps ids pairwise distinct |
| `NoteList.RemovedAt` | src/App.js:73 | with distinct ids, deleting the id at position k leaves exactly the notes before and after k, in order |
| `NoteList.RemovedSplit` | src/App.js:73 | deleting the id of a note that occurs once between two runs of other ids leaves the two runs joined |
| `NoteList.SaveAfterRemoveIsNoop` | src/App.js:49-54 | a save under an id that was just deleted changes nothing in the list |
| `NoteList.Find` | src/App.js:67 | the lookup finds a note exactly when the id occurs, and the note found carries that id |
| `NoteList.FindAt` | src/App.js:67 | with distinct ids, looking up the id of the note at position k returns that note |
| `NoteList.FindAfterSave` | src/App.js:50-52 | after a save under a present id, looking that id up returns the note with the saved text |
| `NotesApp.App.constructor` | src/App.js:41-43 | initial state: no notes, no cursor, empty field |
| `NotesApp.App.Type` | src/App.js:85 | typing sets the field and nothing else |
| `NotesApp.App.Submit` | src/App.js:48-64 | edit mode: the list becomes the save of the field's text under the cursor; add mode: the list becomes the old list plus one note with the fresh id and the field's text; afterwards the cursor is none, the field is empty, ids stay distinct and no note has empty content |
| `NotesApp.App.BeginEdit` | src/App.js:66-70 | for a present id: the cursor becomes the id, the field holds that note's content (never empty, so saving without retyping is allowed), and the list is unchanged |
| `NotesApp.App.Delete` | src/App.js:72-75 | the list becomes its filter by the id; the cursor and the field are unchanged |
| `NotesApp.App.Cancel` | src/App.js:107-109 | the cursor becomes none, the field empty, and the list is unchanged, so a second cancel changes nothing |
| `Layout.IsMobile` | src/App.js:45 | the query `(max-width: 599px)`, inclusive, on a width in CSS pixels; no contract, the predicate is the query |
| `Layout.IsTablet` | src/App.js:46 | the query `(min-width: 600px) and (max-width: 959px)`, both bounds inclusive; no contract, the predicate is the query |
| `Layout.SelectPreset` | src/App.js:78-119 | no contract: it is the three ternaries themselves, `rows` on mobile (line 89), card `sm` and container `maxWidth` on tablet (lines 119, 78) |
| `Layout.PresetFor` | src/App.js:45-46 | no contract: the ternaries applied to the two queries at one width; `PresetBands` states what it gives |
| `Layout.NeverMobileAndTablet` | src/App.js:45-46 | with the inclusive bounds 599 and 600–959, no width is both mobile and tablet |
| `Layout.PresetBands` | src/App.js:78-119 | up to 599: 2 rows, card `sm` 4, container "lg"; 600–959: 4 rows, card `sm` 6, container "sm"; strictly between 599 and 600 (neither query matches) and above 959: 4 rows, card `sm` 4, container "lg" |
| `Layout.CardsPerRow` | src/App.js:119 | one card per row below 600 (fractional widths above 599 included), two from 600 to 959, three above 959 |

## Left out

- Rendering is not modelled. This covers the JSX tree, the Material-UI components, the `makeStyles` spacing and the inline styles (src/App.js:17-39, 77-147). The button label ("Save Note" / "Add Note") and the visibility of the Cancel button follow `editNoteId`, which the model does carry.
- The form library's internals are not modelled (`register`, `handleSubmit`, the mechanics of `reset`). The field is one string.
- The randomness of `uuidv4()` is not modelled. The id is supplied by the caller, who must keep it fresh.
- Viewport detection by `useMediaQuery` is not modelled. The width is an input, a non-negative `real` in CSS pixels, because the browser reports fractional widths under zoom. `IsMobile`, `IsTablet`, `PresetBands` and `CardsPerRow` cover the widths in (599, 600) and (959, 960), which match neither query.
- `CardsPerRow` uses the 600-pixel `sm` breakpoint of the Material-UI default theme. That value comes from the component library, not from App.js.
- The browser's enforcement of `required` is not modelled. It appears only as the precondition of `Submit`.
- Failure of the edit handler on a missing id is not modelled (a runtime fault in the code). `BeginEdit` requires the id to be present instead.
