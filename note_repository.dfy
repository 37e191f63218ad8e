/** The repository object itself: its per-title tables are fields that its
    methods overwrite, and the local database, the LiveData cells, the
    scheduler queue and the remote server's put log are fields beside them.
    The public operations, RegisterNoteListener and the callbacks keep the
    invariant and move the state as a RepositorySpec transition does (of the
    same name, except that RegisterNoteListener matches Register). GetLocal
    and ExistsLocal only read the store. The allocation and table helpers
    equal the RepositorySpec helpers NewObject, NewCell, ScheduleFetch,
    Subscribe and PutTables and do not keep the invariant on their own. */
module Repository {
  import opened Notes
  import opened RepositorySpec

  class NoteRepository {
    var store: map<string, NoteData>
    var executors: map<string, Id>
    var futures: map<string, Id>
    var liveNotes: map<string, Id>
    var notes: map<string, Id>
    var values: map<Id, Option<NoteData>>
    var sources: map<Id, Subscription>
    var pending: seq<Fetch>
    var puts: seq<NoteData>
    var nextId: nat

    /** The abstract value of this repository and its environment. */
    function State(): Repo
      reads this
    {
      Repo(store, executors, futures, liveNotes, notes, values, sources, pending, puts, nextId)
    }

    ghost predicate Valid()
      reads this
    {
      RepositorySpec.Valid(State())
    }

    /** A repository over a database whose rows are keyed by title; it starts
        with no executors, futures, cells or mediators. */
    constructor (dao: map<string, NoteData>)
      requires forall t :: t in dao ==> dao[t].title == t
      ensures Valid() && State() == Init(dao)
      ensures executors == map[] && futures == map[] && liveNotes == map[] && notes == map[]
      ensures store == dao && pending == [] && puts == []
    {
      store := dao;
      executors := map[];
      futures := map[];
      liveNotes := map[];
      notes := map[];
      values := map[];
      sources := map[];
      pending := [];
      puts := [];
      nextId := 0;
      InitValid(dao);
    }

    /** getSynced: a new mediator over the local note and the remote mediator
        for `title`; a new one on every call. */
    method GetSynced(title: string) returns (h: Id)
      requires Valid()
      modifies this
      ensures Valid()
      ensures (State(), h) == RepositorySpec.GetSynced(old(State()), title)
    {
      ghost var before := State();
      h := NewLiveData();
      var remote := GetRemote(title);
      ghost var registered := State();
      Subscribe(h, Subscription(title, remote));
      assert RepositorySpec.GetRemote(NewCell(before), title) == (registered, remote);
      GetSyncedValid(before, title);
    }

    /** The remote observer of mediator `h` for its getSynced call: a null
        note is ignored, a note is written locally when `h` is empty or
        strictly older, which restamps the object it was handed. */
    method UpdateFromRemote(h: Id, theirNote: Note?, now: int)
      requires Valid()
      modifies this, theirNote
      ensures Valid()
      ensures State() == RepositorySpec.UpdateFromRemote(old(State()), h,
                if theirNote == null then None else Some(old(theirNote.Value())), now)
      ensures puts == old(puts) && values == old(values)
      ensures theirNote != null && StrictlyNewer(old(ValueOf(State(), h)), old(theirNote.Value())) ==>
                theirNote.Value() == Stamp(old(theirNote.Value()), now)
      ensures theirNote != null && !StrictlyNewer(old(ValueOf(State(), h)), old(theirNote.Value())) ==>
                unchanged(theirNote)
    {
      var ourNote := ValueOf(State(), h);
      if theirNote == null {
        return;
      }
      if StrictlyNewer(ourNote, theirNote.Value()) {
        UpsertLocal(theirNote, now);
      }
    }

    /** upsertSynced: the local write, then the remote put of the same
        object, which by then carries the local stamp. */
    method UpsertSynced(note: Note, now: int)
      requires Valid()
      modifies this, note
      ensures Valid()
      ensures note.Value() == Stamp(old(note.Value()), now)
      ensures State() == RepositorySpec.UpsertSynced(old(State()), old(note.Value()), now)
      ensures note.title in store && store[note.title] == note.Value()
      ensures puts == old(puts) + [note.Value()]
    {
      UpsertLocal(note, now);
      UpsertRemote(note);
    }

    /** getLocal: the stored note for `title`, or null. */
    method GetLocal(title: string) returns (n: Option<NoteData>)
      ensures n.Some? <==> title in store
      ensures n.Some? ==> n.value == store[title]
    {
      n := if title in store then Some(store[title]) else None;
    }

    /** upsertLocal: overwrite the note's timestamp with the clock, then store
        it under its title. */
    method UpsertLocal(note: Note, now: int)
      requires Valid()
      modifies this, note
      ensures Valid()
      ensures note.Value() == Stamp(old(note.Value()), now)
      ensures State() == RepositorySpec.UpsertLocal(old(State()), old(note.Value()), now)
    {
      ghost var before := State();
      note.updatedAt := now;
      store := store[note.title := note.Value()];
      UpsertLocalValid(before, old(note.Value()), now);
    }

    /** deleteLocal: remove the note's row. */
    method DeleteLocal(note: Note)
      requires Valid()
      modifies this
      ensures Valid()
      ensures State() == RepositorySpec.DeleteLocal(old(State()), note.Value())
    {
      store := store - {note.title};
    }

    /** existsLocal: whether a row for `title` is stored. */
    method ExistsLocal(title: string) returns (b: bool)
      ensures b <==> title in store
    {
      b := title in store;
    }

    /** getRemote: register the title and return the mediator stored for it. */
    method GetRemote(title: string) returns (m: Id)
      requires Valid()
      modifies this
      ensures Valid()
      ensures (State(), m) == RepositorySpec.GetRemote(old(State()), title)
    {
      RegisterNoteListener(title);
      m := notes[title];
    }

    /** registerNoteListener: reuse or create the executor, then create a
        cell, one delayed fetch into it and a mediator over it, and put all
        four into the tables under `title`. */
    method RegisterNoteListener(title: string)
      requires Valid()
      modifies this
      ensures Valid()
      ensures State() == Register(old(State()), title)
    {
      ghost var before := State();
      var executor;
      if title in executors {
        executor := executors[title];
      } else {
        executor := NewExecutor();
      }
      var liveNote := NewLiveData();
      var future := ScheduleFetch(title, liveNote);
      var note := NewLiveData();
      ghost var created := State();
      PutTables(title, executor, liveNote, future, note);
      assert Register(before, title) == RepositorySpec.PutTables(created, title, executor, liveNote, future, note);
      RegisterValid(before, title);
    }

    /** The two addSource calls on mediator `h`: the local row and the
        remote mediator of `sub.title`. */
    method Subscribe(h: Id, sub: Subscription)
      modifies this
      ensures State() == RepositorySpec.Subscribe(old(State()), h, sub)
    {
      sources := sources[h := sub];
    }

    /** The four `put`s that end registerNoteListener. */
    method PutTables(title: string, executor: Id, liveNote: Id, future: Id, note: Id)
      modifies this
      ensures State() == RepositorySpec.PutTables(old(State()), title, executor, liveNote, future, note)
    {
      executors := executors[title := executor];
      liveNotes := liveNotes[title := liveNote];
      futures := futures[title := future];
      notes := notes[title := note];
    }

    /** Executors.newSingleThreadScheduledExecutor(). */
    method NewExecutor() returns (id: Id)
      modifies this
      ensures id == old(nextId) && State() == NewObject(old(State()))
    {
      id := nextId;
      nextId := nextId + 1;
    }

    /** A new MutableLiveData or MediatorLiveData, holding null. */
    method NewLiveData() returns (id: Id)
      modifies this
      ensures id == old(nextId) && State() == NewCell(old(State()))
    {
      id := nextId;
      values := values[id := None];
      nextId := nextId + 1;
    }

    /** executor.schedule(..., 3, SECONDS): one delayed fetch of `title`
        into `liveNote`, never re-armed. */
    method ScheduleFetch(title: string, liveNote: Id) returns (future: Id)
      modifies this
      ensures future == old(nextId)
      ensures State() == RepositorySpec.ScheduleFetch(old(State()), title, liveNote)
    {
      future := nextId;
      pending := pending + [Fetch(title, liveNote)];
      nextId := nextId + 1;
    }

    /** upsertRemote: submit one put of the note as it is now. */
    method UpsertRemote(note: Note)
      requires Valid()
      modifies this
      ensures Valid()
      ensures State() == RepositorySpec.UpsertRemote(old(State()), note.Value())
    {
      puts := puts + [note.Value()];
    }

    /** note::postValue, the forwarding observer of a mediator (lines 59
        and 119). */
    method PostValue(id: Id, v: Option<NoteData>)
      requires Valid() && id in values
      modifies this
      ensures Valid()
      ensures State() == RepositorySpec.PostValue(old(State()), id, v)
    {
      values := values[id := v];
    }

    /** The scheduled fetch `pending[i]` runs, once. */
    method FireFetch(i: nat, outcome: FetchOutcome)
      requires Valid() && i < |pending|
      modifies this
      ensures Valid()
      ensures State() == RepositorySpec.FireFetch(old(State()), i, outcome)
    {
      ghost var before := State();
      var f := pending[i];
      pending := pending[..i] + pending[i + 1..];
      if outcome.Fetched? {
        values := values[f.liveNote := outcome.note];
      }
      FireFetchValid(before, i, outcome);
    }
  }
}
