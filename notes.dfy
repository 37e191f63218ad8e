/** The synchronised record: a note with a title (its key), a body and the
    millisecond time of its last local write. */
module Notes {

  datatype Option<+T> = None | Some(value: T)

  /** The value of a note at one moment: what the local store keeps, what a
      LiveData holds and what a remote put carries. */
  datatype NoteData = NoteData(title: string, content: string, updatedAt: int)

  /** The note as the write path leaves it: same title and body, stamped with
      the local clock. */
  function Stamp(n: NoteData, now: int): (r: NoteData)
    ensures r.title == n.title && r.content == n.content
    ensures r.updatedAt == now
  {
    n.(updatedAt := now)
  }

  /** The test of the remote observer: adopt the remote note when nothing is
      known yet or what is known is strictly older. */
  predicate StrictlyNewer(ours: Option<NoteData>, theirs: NoteData): (b: bool)
    ensures ours.None? ==> b
    ensures ours.Some? && ours.value.updatedAt == theirs.updatedAt ==> !b
  {
    ours.None? || ours.value.updatedAt < theirs.updatedAt
  }

  /** The mutable note object callers hand to the repository; the write path
      overwrites its timestamp in place. */
  class Note {
    var title: string
    var content: string
    var updatedAt: int

    constructor (title: string, content: string, updatedAt: int)
      ensures Value() == NoteData(title, content, updatedAt)
    {
      this.title := title;
      this.content := content;
      this.updatedAt := updatedAt;
    }

    function Value(): NoteData
      reads this
    {
      NoteData(title, content, updatedAt)
    }
  }
}
