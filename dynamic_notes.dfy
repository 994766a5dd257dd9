/** `src/app/components/shared/dynamic-notes/dynamic-notes.component.ts`: the
    per-employee notes list. Persistence to browser storage is not modelled;
    the clock reading that becomes a note's id and timestamp is a parameter. */
module DynamicNotes {
  import opened Seqs
  import opened Text

  datatype Note = Note(id: string, content: string, timestamp: string, author: string)

  const UnknownUser := "Unknown User"

  /** The filter callback `note => note.id !== noteId`. */
  function OtherNotes(noteId: string): Note -> bool
  {
    (n: Note) => n.id != noteId
  }

  /** `this.currentUser || 'Unknown User'`. */
  function AuthorName(currentUser: string): (a: string)
    ensures a != []
    ensures currentUser != [] ==> a == currentUser
    ensures currentUser == [] ==> a == UnknownUser
  {
    if currentUser == [] then UnknownUser else currentUser
  }

  /** Deleting a note id removes every note with that id and keeps the rest, with their
      multiplicities, in their original order. */
  lemma {:induction false} DeleteRemovesEveryMatch(notes: seq<Note>, noteId: string)
    ensures var r := Filter(notes, OtherNotes(noteId));
      IsSubsequence(r, notes)
      && (forall n :: n in r <==> n in notes && n.id != noteId)
      && (forall n :: multiset(r)[n] == if n.id == noteId then 0 else multiset(notes)[n])
  {
    var r := Filter(notes, OtherNotes(noteId));
    FilterIsSubsequence(notes, OtherNotes(noteId));
    forall n: Note ensures multiset(r)[n] == if n.id == noteId then 0 else multiset(notes)[n] {
      FilterCounts(notes, OtherNotes(noteId), n);
    }
    FilterMembers(notes, OtherNotes(noteId));
  }

  class DynamicNotesComponent {
    const employeeId: string
    const currentUser: string
    var notes: seq<Note>
    var showAddNote: bool
    var newNoteContent: string

    constructor (employeeId: string, currentUser: string)
      ensures this.employeeId == employeeId && this.currentUser == currentUser
      ensures notes == [] && !showAddNote && newNoteContent == []
    {
      this.employeeId := employeeId;
      this.currentUser := currentUser;
      notes := [];
      showAddNote := false;
      newNoteContent := [];
    }

    /** `toggleAddNote`: open or close the input; closing it discards the draft. */
    method ToggleAddNote()
      modifies this
      ensures showAddNote == !old(showAddNote)
      ensures newNoteContent == if showAddNote then old(newNoteContent) else []
      ensures notes == old(notes)
    {
      showAddNote := !showAddNote;
      if !showAddNote {
        newNoteContent := [];
      }
    }

    /** `addNote`: a blank draft changes nothing; otherwise the trimmed draft becomes a new
        note at the front, signed by the current user, and the input closes and clears.
        `now` stands for `Date.now()`, used as the id, and `stamp` for the timestamp. */
    method AddNote(now: string, stamp: string)
      modifies this
      ensures Trim(old(newNoteContent)) == [] ==>
                notes == old(notes) && showAddNote == old(showAddNote) && newNoteContent == old(newNoteContent)
      ensures Trim(old(newNoteContent)) != [] ==>
                notes == [Note(now, Trim(old(newNoteContent)), stamp, AuthorName(currentUser))] + old(notes)
                && newNoteContent == [] && !showAddNote
    {
      if Trim(newNoteContent) == [] {
        return;
      }
      var newNote := Note(now, Trim(newNoteContent), stamp, AuthorName(currentUser));
      notes := [newNote] + notes;
      newNoteContent := [];
      showAddNote := false;
    }

    /** `deleteNote`: drop every note with that id. */
    method DeleteNote(noteId: string)
      modifies this
      ensures notes == Filter(old(notes), OtherNotes(noteId))
      ensures showAddNote == old(showAddNote) && newNoteContent == old(newNoteContent)
    {
      notes := Filter(notes, OtherNotes(noteId));
    }
  }
}
