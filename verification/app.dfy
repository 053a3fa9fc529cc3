/**
 The state machine of the notes editor's `App` component: the list of
 notes, the id of the note being edited (or none), and the one form
 field the note text is typed into. Each handler of the component is a
 method that updates these fields the way the component's state setters
 and the form's `reset` do.
 */
module NotesApp {
  import opened NoteList

  class App {
    /** `notes`, in insertion order. */
    var notes: seq<Note>
    /** `editNoteId`: `None` is the component's `null`, i.e. add mode. */
    var editNoteId: Option<Id>
    /** The text of the form field registered as `content`. */
    var formContent: string

    /**
     The ids are pairwise distinct. Ids are never the empty string (they
     come from `uuidv4()`), so a cursor that is `Some` is a truthy string,
     which is what the submit handler tests. No note has empty content,
     since the field is `required` whenever a note is added or saved.
     */
    ghost predicate Valid()
      reads this
    {
      && DistinctIds(notes)
      && "" !in Ids(notes)
      && editNoteId != Some("")
      && (forall i :: 0 <= i < |notes| ==> notes[i].content != "")
    }

    /** The component's first render: no notes, add mode, an empty field. */
    constructor ()
      ensures Valid()
      ensures notes == [] && editNoteId == None && formContent == ""
    {
      notes := [];
      editNoteId := None;
      formContent := "";
    }

    /** The user types into the field; nothing else changes. */
    method Type(text: string)
      requires Valid()
      modifies this
      ensures Valid()
      ensures formContent == text
      ensures notes == old(notes) && editNoteId == old(editNoteId)
    {
      formContent := text;
    }

    /**
     The form's submit handler. In edit mode ("Save Note") the note(s)
     under the cursor take the field's text and everything else in the
     list stays; in add mode ("Add Note") a note with the fresh id
     `newId` and the field's text is appended. Either way the cursor
     ends at none and the field is empty. The field's `required`
     attribute makes an empty submission impossible; `newId` stands for
     the value of `uuidv4()`, which only the add branch draws.
     */
    method Submit(newId: Id)
      requires Valid()
      requires formContent != ""
      requires editNoteId == None ==> newId != "" && newId !in Ids(notes)
      modifies this
      ensures Valid()
      ensures old(editNoteId).Some? ==>
                notes == SaveContent(old(notes), old(editNoteId).value, old(formContent))
      ensures old(editNoteId) == None ==>
                notes == old(notes) + [Note(newId, old(formContent))]
      ensures editNoteId == None && formContent == ""
    {
      var text := formContent;
      if editNoteId.Some? {
        var id := editNoteId.value;
        SaveKeepsIds(notes, id, text);
        notes := SaveContent(notes, id, text);
        editNoteId := None;
        formContent := "";
      } else {
        AppendFreshKeepsDistinct(notes, Note(newId, text));
        notes := notes + [Note(newId, text)];
        formContent := "";
      }
    }

    /**
     The edit button of the card with id `id`: the cursor moves to `id`
     and the field shows that note's current text. The list is not
     touched. The looked-up note must exist, since its content is read.
     */
    method BeginEdit(id: Id)
      requires Valid()
      requires id in Ids(notes)
      modifies this
      ensures Valid()
      ensures notes == old(notes)
      ensures editNoteId == Some(id)
      ensures forall k :: 0 <= k < |notes| && notes[k].id == id ==> formContent == notes[k].content
      ensures formContent != ""
    {
      var noteToEdit := Find(notes, id);
      editNoteId := Some(id);
      formContent := noteToEdit.value.content;
      forall k | 0 <= k < |notes| && notes[k].id == id
        ensures formContent == notes[k].content
      {
        FindAt(notes, k);
      }
    }

    /**
     The delete button of the card with id `id`: the list is filtered,
     and neither the cursor nor the field is touched, even when `id` is
     the note being edited.
     */
    method Delete(id: Id)
      requires Valid()
      modifies this
      ensures Valid()
      ensures notes == Removed(old(notes), id)
      ensures editNoteId == old(editNoteId) && formContent == old(formContent)
    {
      RemovedKeepsDistinct(notes, id);
      RemovedIds(notes, id);
      RemovedCounts(notes, id);
      var kept := Removed(notes, id);
      forall i | 0 <= i < |kept| ensures kept[i].content != "" {
        assert kept[i] in multiset(kept);
      }
      notes := kept;
    }

    /** The Cancel button: back to add mode with an empty field; the list is not touched. */
    method Cancel()
      requires Valid()
      modifies this
      ensures Valid()
      ensures notes == old(notes)
      ensures editNoteId == None && formContent == ""
    {
      editNoteId := None;
      formContent := "";
    }
  }

  /**
   A session of the editor: two notes are added, the first is edited and
   saved, the second is deleted twice; the first is saved again without
   retyping, which changes nothing; then a note is deleted while it is
   being edited, and the save that follows clears the cursor and the field
   and leaves the list unchanged.
   */
  method Session(milk: Id, dog: Id, cat: Id)
    requires milk != "" && dog != "" && cat != ""
    requires milk != dog && dog != cat && milk != cat
  {
    var app := new App();
    app.Type("Buy milk");
    app.Submit(milk);
    assert app.notes == [Note(milk, "Buy milk")] && app.editNoteId == None;
    app.Type("Walk dog");
    app.Submit(dog);
    assert app.notes == [Note(milk, "Buy milk"), Note(dog, "Walk dog")];

    app.BeginEdit(milk);
    assert app.formContent == "Buy milk" && app.editNoteId == Some(milk);
    app.Type("Buy oat milk");
    app.Submit(cat);
    assert app.notes == [Note(milk, "Buy oat milk"), Note(dog, "Walk dog")];
    assert app.editNoteId == None && app.formContent == "";

    var before := app.notes;
    app.Delete(dog);
    RemovedAt(before, 1);
    assert app.notes == [Note(milk, "Buy oat milk")];
    app.Delete(dog);
    RemovedIdempotent(before, dog);
    assert app.notes == [Note(milk, "Buy oat milk")];

    app.BeginEdit(milk);
    app.Submit(cat);
    assert app.notes == [Note(milk, "Buy oat milk")];

    app.BeginEdit(milk);
    app.Cancel();
    app.Cancel();
    assert app.notes == [Note(milk, "Buy oat milk")];
    assert app.editNoteId == None && app.formContent == "";

    app.BeginEdit(milk);
    var edited := app.notes;
    app.Delete(milk);
    assert app.editNoteId == Some(milk) && app.formContent == "Buy oat milk";
    app.Submit(cat);
    SaveAfterRemoveIsNoop(edited, milk, "Buy oat milk");
    RemovedAt(edited, 0);
    assert app.notes == [];
    assert app.editNoteId == None && app.formContent == "";
  }
}
