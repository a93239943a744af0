/** The topic editor: load a topic's note (empty when there is none) and
    save the edited text over it. */
module TopicEditor {
  import opened Store

  /** Lines 39-42: the note's text, `""` when the note does not exist. */
  function NoteText(files: Files, course: string, content: string, topic: string): string
    requires WellFormed(files)
  {
    if NoteFile(course, content, topic) in files then TextAt(files, NoteFile(course, content, topic)) else ""
  }

  method LoadNote(disk: Disk, course: string, content: string, topic: string) returns (text: string)
    requires disk.Valid()
    ensures text == NoteText(disk.files, course, content, topic)
  {
    text := "";
    var present := disk.Exists(NoteFile(course, content, topic));
    if present {
      text := disk.ReadText(NoteFile(course, content, topic));
    }
  }

  /** Lines 57-59: the note is overwritten with the editor's text. */
  method SaveNote(disk: Disk, course: string, content: string, topic: string, note: string)
    requires disk.Valid()
    modifies disk
    ensures disk.Valid()
    ensures disk.files == old(disk.files)[NoteFile(course, content, topic) := Plain(note)]
  {
    disk.Write(NoteFile(course, content, topic), Plain(note));
  }

  /** A saved note loads back as saved, and only that note changed. */
  lemma SaveThenLoad(files: Files, course: string, content: string, topic: string, note: string)
    requires WellFormed(files)
    ensures var saved := files[NoteFile(course, content, topic) := Plain(note)];
      && WellFormed(saved)
      && NoteText(saved, course, content, topic) == note
      && (forall k :: k in files && k != NoteFile(course, content, topic) ==> k in saved && saved[k] == files[k])
  {
  }

  /** The note name `<content>_<topic>.md` does not tell its two parts
      apart: different content and topic pairs can share one note. */
  lemma NoteNamesCollide(course: string)
    ensures exists c1, t1, c2, t2 :: (c1, t1) != (c2, t2) && NoteFile(course, c1, t1) == NoteFile(course, c2, t2)
  {
    assert ("a_b", "c") != ("a", "b_c");
    assert NoteFile(course, "a_b", "c") == NoteFile(course, "a", "b_c");
  }
}
