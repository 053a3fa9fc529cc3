/**
 The pure list computations behind the notes editor's handlers: the
 `map` with a conditional spread that saves an edit, the `filter` that
 deletes, and the `find` that looks a note up for editing. Each is a
 recursive function over `seq<Note>` that walks the list front to back,
 as the array methods `map`, `filter` and `find` do. The append that
 adds a note is a plain concatenation; its lemma is below.
 */
module NoteList {

  datatype Option<+T> = None | Some(value: T)

  /** A note id is the string that `uuidv4()` produced for it. */
  type Id = string

  datatype Note = Note(id: Id, content: string)

  /** The ids of `notes`, in list order. */
  function Ids(notes: seq<Note>): (r: seq<Id>)
    ensures |r| == |notes|
    ensures forall i :: 0 <= i < |notes| ==> r[i] == notes[i].id
  {
    if notes == [] then [] else [notes[0].id] + Ids(notes[1..])
  }

  /** No two notes of the list share an id. */
  predicate DistinctIds(notes: seq<Note>) {
    forall i, j :: 0 <= i < j < |notes| ==> notes[i].id != notes[j].id
  }

  // ---------------------------------------------------------------------
  // Save: notes.map(note => note.id === id ? { ...note, content } : note)
  // ---------------------------------------------------------------------

  /** One step of the save map: the spread keeps the id, replaces the content. */
  function Edited(n: Note, id: Id, text: string): Note {
    if n.id == id then n.(content := text) else n
  }

  /**
   The list after saving `text` into the note(s) whose id is `id`: same
   length, same order, same ids; a note takes `text` exactly when its id
   matches, every other note is left as it was.
   */
  function SaveContent(notes: seq<Note>, id: Id, text: string): (r: seq<Note>)
    ensures |r| == |notes|
    ensures forall i :: 0 <= i < |notes| ==> r[i].id == notes[i].id
    ensures forall i :: 0 <= i < |notes| && notes[i].id == id ==> r[i].content == text
    ensures forall i :: 0 <= i < |notes| && notes[i].id != id ==> r[i] == notes[i]
  {
    if notes == [] then [] else [Edited(notes[0], id, text)] + SaveContent(notes[1..], id, text)
  }

  /** Saving never changes the sequence of ids, so it keeps them distinct. */
  lemma SaveKeepsIds(notes: seq<Note>, id: Id, text: string)
    ensures Ids(SaveContent(notes, id, text)) == Ids(notes)
    ensures DistinctIds(notes) ==> DistinctIds(SaveContent(notes, id, text))
  {
  }

  /** Saving under an id no note carries (a cursor left dangling by a delete) changes nothing. */
  lemma {:induction false} SaveAbsent(notes: seq<Note>, id: Id, text: string)
    requires id !in Ids(notes)
    ensures SaveContent(notes, id, text) == notes
  {
    var r := SaveContent(notes, id, text);
    forall i | 0 <= i < |notes|
      ensures r[i] == notes[i]
    {
      assert Ids(notes)[i] == notes[i].id;
    }
  }

  // ---------------------------------------------------------------------
  // Add: [...notes, newNote]
  // ---------------------------------------------------------------------

  /** Appending a note under a fresh id keeps the ids distinct. */
  lemma {:induction false} AppendFreshKeepsDistinct(notes: seq<Note>, n: Note)
    requires DistinctIds(notes)
    requires n.id !in Ids(notes)
    ensures DistinctIds(notes + [n])
    ensures Ids(notes + [n]) == Ids(notes) + [n.id]
  {
    var s := notes + [n];
    forall i, j | 0 <= i < j < |s|
      ensures s[i].id != s[j].id
    {
      if j == |notes| {
        assert Ids(notes)[i] == s[i].id;
      }
    }
  }

  // ---------------------------------------------------------------------
  // Delete: notes.filter(note => note.id !== id)
  // ---------------------------------------------------------------------

  /** The list after deleting `id`. */
  function Removed(notes: seq<Note>, id: Id): (r: seq<Note>)
    ensures |r| <= |notes|
  {
    if notes == [] then []
    else (if notes[0].id == id then [] else [notes[0]]) + Removed(notes[1..], id)
  }

  /**
   Deleting `id` removes every occurrence of every note carrying `id`, and
   keeps every other note as many times as it occurred; nothing is added.
   */
  lemma {:induction false} RemovedCounts(notes: seq<Note>, id: Id)
    ensures forall n :: multiset(Removed(notes, id))[n] == if n.id == id then 0 else multiset(notes)[n]
  {
    if notes != [] {
      assert notes == [notes[0]] + notes[1..];
      RemovedCounts(notes[1..], id);
    }
  }

  /** After a delete no note carries the deleted id, and every remaining id was there before. */
  lemma RemovedIds(notes: seq<Note>, id: Id)
    ensures id !in Ids(Removed(notes, id))
    ensures forall x :: x in Ids(Removed(notes, id)) ==> x in Ids(notes)
  {
    var r := Removed(notes, id);
    RemovedCounts(notes, id);
    forall x | x in Ids(r)
      ensures x != id && x in Ids(notes)
    {
      var i :| 0 <= i < |r| && Ids(r)[i] == x;
      assert r[i] in multiset(r);
      assert r[i] in notes;
      var k :| 0 <= k < |notes| && notes[k] == r[i];
      assert Ids(notes)[k] == x;
    }
  }

  /**
   Filtering distributes over concatenation: the notes that survive keep
   their relative order.
   */
  lemma {:induction false} RemovedConcat(a: seq<Note>, b: seq<Note>, id: Id)
    ensures Removed(a + b, id) == Removed(a, id) + Removed(b, id)
  {
    if a == [] {
      assert a + b == b;
    } else {
      assert (a + b)[0] == a[0];
      assert (a + b)[1..] == a[1..] + b;
      RemovedConcat(a[1..], b, id);
    }
  }

  /** Deleting an id that no note carries leaves the list as it was. */
  lemma {:induction false} RemovedAbsent(notes: seq<Note>, id: Id)
    requires id !in Ids(notes)
    ensures Removed(notes, id) == notes
  {
    if notes != [] {
      assert Ids(notes)[0] == notes[0].id;
      assert Ids(notes[1..]) == Ids(notes)[1..];
      RemovedAbsent(notes[1..], id);
    }
  }

  /** Deleting twice is the same as deleting once. */
  lemma {:induction false} RemovedIdempotent(notes: seq<Note>, id: Id)
    ensures Removed(Removed(notes, id), id) == Removed(notes, id)
  {
    RemovedIds(notes, id);
    RemovedAbsent(Removed(notes, id), id);
  }

  /** Deleting keeps the remaining ids distinct. */
  lemma {:induction false} RemovedKeepsDistinct(notes: seq<Note>, id: Id)
    requires DistinctIds(notes)
    ensures DistinctIds(Removed(notes, id))
  {
    if notes != [] {
      var rest := notes[1..];
      assert DistinctIds(rest);
      RemovedKeepsDistinct(rest, id);
      if notes[0].id != id {
        var r := Removed(rest, id);
        RemovedIds(rest, id);
        assert notes[0].id !in Ids(rest) by {
          forall k | 0 <= k < |rest| ensures Ids(rest)[k] != notes[0].id {
            assert rest[k] == notes[k + 1];
          }
        }
        forall k | 0 <= k < |r| ensures r[k].id != notes[0].id {
          assert Ids(r)[k] == r[k].id;
        }
        assert Removed(notes, id) == [notes[0]] + r;
      }
    }
  }

  /**
   With distinct ids, deleting the id of the note at position `k` removes
   exactly that note: the notes before it and after it stay, in order.
   */
  lemma {:induction false} RemovedAt(notes: seq<Note>, k: nat)
    requires DistinctIds(notes)
    requires k < |notes|
    ensures Removed(notes, notes[k].id) == notes[..k] + notes[k + 1..]
  {
    var id := notes[k].id;
    var pre, post := notes[..k], notes[k + 1..];
    assert notes == pre + ([notes[k]] + post);
    assert id !in Ids(pre) by {
      forall i | 0 <= i < |pre| ensures pre[i].id != id {
        assert pre[i] == notes[i];
      }
      IdNotIn(pre, id);
    }
    assert id !in Ids(post) by {
      forall i | 0 <= i < |post| ensures post[i].id != id {
        assert post[i] == notes[k + 1 + i];
      }
      IdNotIn(post, id);
    }
    RemovedSplit(pre, notes[k], post);
  }

  /** Deleting the id of a note that occurs once, between `pre` and `post`, leaves `pre + post`. */
  lemma {:induction false} RemovedSplit(pre: seq<Note>, n: Note, post: seq<Note>)
    requires n.id !in Ids(pre) && n.id !in Ids(post)
    ensures Removed(pre + ([n] + post), n.id) == pre + post
  {
    var id := n.id;
    assert Removed([n], id) == [] by {
      assert [n][1..] == [];
    }
    calc {
      Removed(pre + ([n] + post), id);
      { RemovedConcat(pre, [n] + post, id); }
      Removed(pre, id) + Removed([n] + post, id);
      { RemovedConcat([n], post, id); }
      Removed(pre, id) + Removed(post, id);
      { RemovedAbsent(pre, id); RemovedAbsent(post, id); }
      pre + post;
    }
  }

  /** An id that no note of the list carries does not occur among its ids. */
  lemma IdNotIn(notes: seq<Note>, id: Id)
    requires forall i :: 0 <= i < |notes| ==> notes[i].id != id
    ensures id !in Ids(notes)
  {
  }

  /** A later save under the deleted id finds nothing to change. */
  lemma {:induction false} SaveAfterRemoveIsNoop(notes: seq<Note>, id: Id, text: string)
    ensures SaveContent(Removed(notes, id), id, text) == Removed(notes, id)
  {
    RemovedIds(notes, id);
    SaveAbsent(Removed(notes, id), id, text);
  }

  // ---------------------------------------------------------------------
  // Begin edit: notes.find(note => note.id === id)
  // ---------------------------------------------------------------------

  /**
   The first note carrying `id`, if any: there is one exactly when `id`
   occurs in the list, and it is a note of the list with that id.
   */
  function Find(notes: seq<Note>, id: Id): (r: Option<Note>)
    ensures r.Some? <==> id in Ids(notes)
    ensures r.Some? ==> r.value in notes && r.value.id == id
  {
    if notes == [] then None
    else if notes[0].id == id then Some(notes[0])
    else Find(notes[1..], id)
  }

  /** With distinct ids, looking up the id of the note at position `k` finds that note. */
  lemma {:induction false} FindAt(notes: seq<Note>, k: nat)
    requires DistinctIds(notes)
    requires k < |notes|
    ensures Find(notes, notes[k].id) == Some(notes[k])
  {
    if k > 0 {
      assert notes[0].id != notes[k].id;
      assert notes[1..][k - 1] == notes[k];
      FindAt(notes[1..], k - 1);
    }
  }

  /**
   Saving under an id that is present makes a later lookup of that id
   return the note with the saved text.
   */
  lemma {:induction false} FindAfterSave(notes: seq<Note>, id: Id, text: string)
    requires DistinctIds(notes)
    requires id in Ids(notes)
    ensures Find(SaveContent(notes, id, text), id) == Some(Note(id, text))
  {
    var k :| 0 <= k < |notes| && Ids(notes)[k] == id;
    var r := SaveContent(notes, id, text);
    SaveKeepsIds(notes, id, text);
    FindAt(r, k);
  }
}
