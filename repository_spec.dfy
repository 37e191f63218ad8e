/** The whole state of a NoteRepository and its environment as one value, and
    each repository operation and observer as a transition on it. Objects the
    repository allocates (executors, scheduled futures, LiveData and
    MediatorLiveData cells) are ids drawn from one counter. */
module RepositorySpec {
  import opened Notes

  type Id = nat

  /** A one-shot delayed fetch of `title` that posts its result into the
      LiveData cell `liveNote`. */
  datatype Fetch = Fetch(title: string, liveNote: Id)

  /** What a getSynced mediator listens to: the local store's note `title`
      and the remote mediator `remote` registered for it. */
  datatype Subscription = Subscription(title: string, remote: Id)

  /** How a scheduled fetch ends: with the server's answer or by throwing
      (the blocking get timed out), in which case nothing is posted. */
  datatype FetchOutcome = Fetched(note: Option<NoteData>) | Failed

  datatype Repo = Repo(
    store: map<string, NoteData>,       // the local database, by title
    executors: map<string, Id>,         // per-title scheduled executor
    futures: map<string, Id>,           // per-title most recent scheduled fetch
    liveNotes: map<string, Id>,         // per-title cell the fetch posts into
    notes: map<string, Id>,             // per-title mediator over that cell
    values: map<Id, Option<NoteData>>,  // current value of every LiveData cell
    sources: map<Id, Subscription>,     // what each getSynced mediator observes
    pending: seq<Fetch>,                // scheduled fetches not yet run
    puts: seq<NoteData>,                // remote puts, in submission order
    nextId: nat)                        // the next unused object id

  /** The two tables agree on every title other than `t`. */
  ghost predicate SameExcept(m: map<string, Id>, m': map<string, Id>, t: string) {
    forall u :: u != t ==> (u in m <==> u in m') && (u in m ==> m[u] == m'[u])
  }

  /** Current value of a LiveData cell; a cell never posted to holds null. */
  function ValueOf(s: Repo, id: Id): Option<NoteData> {
    if id in s.values then s.values[id] else None
  }

  /** Every id in use was allocated, the four tables have the same titles,
      every cell the tables and fetches name exists, no fetch posts into a
      getSynced mediator, and the store is keyed by title. */
  ghost predicate Valid(s: Repo) {
    && s.futures.Keys == s.executors.Keys
    && s.liveNotes.Keys == s.executors.Keys
    && s.notes.Keys == s.executors.Keys
    && (forall t :: t in s.executors ==> s.executors[t] < s.nextId)
    && (forall t :: t in s.futures ==> s.futures[t] < s.nextId)
    && (forall t :: t in s.liveNotes ==> s.liveNotes[t] in s.values)
    && (forall t :: t in s.notes ==> s.notes[t] in s.values)
    && (forall id :: id in s.values ==> id < s.nextId)
    && (forall h :: h in s.sources ==> h in s.values && s.sources[h].remote in s.values)
    && (forall i :: 0 <= i < |s.pending| ==> s.pending[i].liveNote in s.values)
    && (forall i :: 0 <= i < |s.pending| ==> s.pending[i].liveNote !in s.sources)
    && (forall t :: t in s.store ==> s.store[t].title == t)
  }

  /** A freshly constructed repository over a database `dao`. */
  function Init(dao: map<string, NoteData>): Repo {
    Repo(dao, map[], map[], map[], map[], map[], map[], [], [], 0)
  }

  lemma InitValid(dao: map<string, NoteData>)
    requires forall t :: t in dao ==> dao[t].title == t
    ensures Valid(Init(dao))
  {
  }

  /** upsertLocal: stamp the note with the clock and write it under its
      title; nothing else changes. */
  function UpsertLocal(s: Repo, n: NoteData, now: int): (r: Repo)
    ensures n.title in r.store && r.store[n.title] == Stamp(n, now)
    ensures r.store[n.title].updatedAt == now
    ensures r.store - {n.title} == s.store - {n.title}
    ensures r == s.(store := r.store)
  {
    s.(store := s.store[n.title := Stamp(n, now)])
  }

  /** deleteLocal: remove the note's title from the store. */
  function DeleteLocal(s: Repo, n: NoteData): (r: Repo)
    ensures n.title !in r.store
    ensures r.store - {n.title} == s.store - {n.title}
    ensures r == s.(store := r.store)
  {
    s.(store := s.store - {n.title})
  }

  /** upsertRemote: one more put, carrying the note as it is now. */
  function UpsertRemote(s: Repo, n: NoteData): (r: Repo)
    ensures |r.puts| == |s.puts| + 1 && r.puts[..|s.puts|] == s.puts
    ensures r.puts[|s.puts|] == n
    ensures r == s.(puts := r.puts)
  {
    s.(puts := s.puts + [n])
  }

  /** upsertSynced: the local write, then the remote put of the very same
      (now stamped) note. */
  function UpsertSynced(s: Repo, n: NoteData, now: int): (r: Repo)
    ensures r.store == UpsertLocal(s, n, now).store
    ensures r.puts == s.puts + [r.store[n.title]]
    ensures r.puts[|s.puts|].updatedAt == now
    ensures r == s.(store := r.store, puts := r.puts)
  {
    UpsertRemote(UpsertLocal(s, n, now), Stamp(n, now))
  }

  /** A new object that is not a LiveData cell (an executor) under the next
      id. */
  function NewObject(s: Repo): (r: Repo)
    ensures r.nextId == s.nextId + 1
    ensures r == s.(nextId := r.nextId)
  {
    s.(nextId := s.nextId + 1)
  }

  /** A new LiveData cell under the next id, holding null. */
  function NewCell(s: Repo): (r: Repo)
    ensures ValueOf(r, s.nextId) == None && r.nextId == s.nextId + 1
    ensures forall id :: id != s.nextId ==> ValueOf(r, id) == ValueOf(s, id)
    ensures r == s.(values := r.values, nextId := r.nextId)
  {
    s.(values := s.values[s.nextId := None], nextId := s.nextId + 1)
  }

  /** executor.schedule: one delayed fetch of `t` into `cell`; its future is
      a new object under the next id. */
  function ScheduleFetch(s: Repo, t: string, cell: Id): (r: Repo)
    ensures r.pending == s.pending + [Fetch(t, cell)]
    ensures r.nextId == s.nextId + 1
    ensures r == s.(pending := r.pending, nextId := r.nextId)
  {
    s.(pending := s.pending + [Fetch(t, cell)], nextId := s.nextId + 1)
  }

  /** The four `put`s that end registerNoteListener. */
  function PutTables(s: Repo, t: string, executor: Id, liveNote: Id, future: Id, note: Id): (r: Repo)
    ensures r.executors == s.executors[t := executor]
    ensures r.liveNotes == s.liveNotes[t := liveNote]
    ensures r.futures == s.futures[t := future]
    ensures r.notes == s.notes[t := note]
    ensures r == s.(executors := r.executors, liveNotes := r.liveNotes,
                    futures := r.futures, notes := r.notes)
  {
    s.(executors := s.executors[t := executor],
       liveNotes := s.liveNotes[t := liveNote],
       futures := s.futures[t := future],
       notes := s.notes[t := note])
  }

  /** registerNoteListener: keep the title's executor or make one, then make
      a fresh cell, schedule one fetch into it, wrap it in a fresh mediator,
      and overwrite all four tables for the title. What this achieves is
      stated by RegisterEffects. */
  function Register(s: Repo, t: string): Repo {
    var executor := if t in s.executors then s.executors[t] else s.nextId;
    var s1 := if t in s.executors then s else NewObject(s);
    var liveNote := s1.nextId;
    var s2 := NewCell(s1);
    var future := s2.nextId;
    var s3 := ScheduleFetch(s2, t, liveNote);
    var note := s3.nextId;
    PutTables(NewCell(s3), t, executor, liveNote, future, note)
  }

  /** getRemote: register the title and hand out the mediator just stored
      for it. */
  function GetRemote(s: Repo, t: string): (Repo, Id) {
    var r := Register(s, t);
    (r, r.notes[t])
  }

  /** getSynced: a fresh mediator that listens to the local note and, through
      the remote observer, to the mediator getRemote registers. */
  function GetSynced(s: Repo, t: string): (Repo, Id) {
    var h := s.nextId;
    var remote := GetRemote(NewCell(s), t);
    (Subscribe(remote.0, h, Subscription(t, remote.1)), h)
  }

  /** After registering `t` the four tables hold `t`; the executor is the old
      one when there was one and a fresh one otherwise; the cell, the future
      and the mediator are always fresh and distinct; other titles keep their
      entries; exactly one fetch, into the new cell, is scheduled. */
  lemma RegisterEffects(s: Repo, t: string)
    ensures var r := Register(s, t);
      && t in r.executors && t in r.futures && t in r.liveNotes && t in r.notes
      && (t in s.executors ==> r.executors[t] == s.executors[t])
      && (t !in s.executors ==> s.nextId <= r.executors[t] < r.liveNotes[t])
      && s.nextId <= r.liveNotes[t] < r.futures[t] < r.notes[t] < r.nextId
      && SameExcept(r.executors, s.executors, t)
      && SameExcept(r.futures, s.futures, t)
      && SameExcept(r.liveNotes, s.liveNotes, t)
      && SameExcept(r.notes, s.notes, t)
      && r.pending == s.pending + [Fetch(t, r.liveNotes[t])]
      && r.values == s.values[r.liveNotes[t] := None][r.notes[t] := None]
      && r.store == s.store && r.puts == s.puts && r.sources == s.sources
  {
    var executor := if t in s.executors then s.executors[t] else s.nextId;
    var s1 := if t in s.executors then s else NewObject(s);
    var s2 := NewCell(s1);
    var s3 := ScheduleFetch(s2, t, s1.nextId);
    var s4 := NewCell(s3);
    assert Register(s, t) == PutTables(s4, t, executor, s1.nextId, s2.nextId, s3.nextId);
    assert s4.executors == s.executors && s4.futures == s.futures;
    assert s4.liveNotes == s.liveNotes && s4.notes == s.notes;
    assert s4.values == s.values[s1.nextId := None][s3.nextId := None];
    assert s4.pending == s.pending + [Fetch(t, s1.nextId)];
  }

  /** getRemote schedules exactly one more fetch, for `t`, and returns the
      fresh mediator it stored under `t`. */
  lemma GetRemoteEffects(s: Repo, t: string)
    ensures var r := GetRemote(s, t);
      && t in r.0.notes && r.1 == r.0.notes[t] && s.nextId <= r.1 < r.0.nextId
      && r.0.pending == s.pending + [Fetch(t, r.0.liveNotes[t])]
      && r.0.store == s.store && r.0.puts == s.puts
  {
    RegisterEffects(s, t);
  }

  /** What registration allocates is new: the cell, the future and the
      mediator, and the executor when the title had none, are named nowhere in
      the state before the call. */
  lemma RegisterAllocatesFresh(s: Repo, t: string)
    requires Valid(s)
    ensures var r := Register(s, t);
      && r.liveNotes[t] !in s.values && r.notes[t] !in s.values
      && (forall u :: u in s.futures ==> s.futures[u] != r.futures[t])
      && (t !in s.executors ==> forall u :: u in s.executors ==> s.executors[u] != r.executors[t])
      && (forall i :: 0 <= i < |s.pending| ==> s.pending[i].liveNote != r.liveNotes[t])
  {
    RegisterEffects(s, t);
    var r := Register(s, t);
    FreshIdUnused(s, r.liveNotes[t]);
    FreshIdUnused(s, r.notes[t]);
    FreshIdUnused(s, r.futures[t]);
    if t !in s.executors {
      FreshIdUnused(s, r.executors[t]);
    }
  }

  /** getSynced hands out a fresh, empty mediator subscribed to the local
      note and to the mediator registered by this very call, whose executor is
      the one `t` already had if any; nothing is written locally or
      remotely. */
  lemma GetSyncedEffects(s: Repo, t: string)
    ensures var r := GetSynced(s, t);
      && r.1 == s.nextId && ValueOf(r.0, r.1) == None
      && t in r.0.notes && r.1 < r.0.notes[t] < r.0.nextId
      && r.0.sources == s.sources[r.1 := Subscription(t, r.0.notes[t])]
      && t in r.0.liveNotes && r.0.pending == s.pending + [Fetch(t, r.0.liveNotes[t])]
      && (t in s.executors ==> t in r.0.executors && r.0.executors[t] == s.executors[t])
      && SameExcept(r.0.executors, s.executors, t)
      && SameExcept(r.0.futures, s.futures, t)
      && SameExcept(r.0.liveNotes, s.liveNotes, t)
      && SameExcept(r.0.notes, s.notes, t)
      && r.0.values == s.values[r.1 := None][r.0.liveNotes[t] := None][r.0.notes[t] := None]
      && r.0.store == s.store && r.0.puts == s.puts
  {
    var s0 := NewCell(s);
    RegisterEffects(s0, t);
    assert s0.values == s.values[s.nextId := None];
    assert s0.executors == s.executors && s0.futures == s.futures;
    assert s0.liveNotes == s.liveNotes && s0.notes == s.notes;
  }

  /** The getSynced mediator and the remote mediator below it are cells that
      did not exist before the call, and no earlier mediator listens to them. */
  lemma GetSyncedAllocatesFresh(s: Repo, t: string)
    requires Valid(s)
    ensures var r := GetSynced(s, t);
      && r.1 !in s.values && r.1 !in s.sources
      && r.0.notes[t] !in s.values
      && (forall h :: h in s.sources ==> s.sources[h].remote != r.0.notes[t])
  {
    GetSyncedEffects(s, t);
    var r := GetSynced(s, t);
    FreshIdUnused(s, r.1);
    FreshIdUnused(s, r.0.notes[t]);
  }

  /** One more addSource relation recorded for mediator `h`. */
  function Subscribe(s: Repo, h: Id, sub: Subscription): (r: Repo)
    ensures h in r.sources && r.sources[h] == sub
    ensures r == s.(sources := r.sources)
  {
    s.(sources := s.sources[h := sub])
  }

  /** note::postValue, the forwarding observer of a mediator: the cell now
      holds `v`. */
  function PostValue(s: Repo, id: Id, v: Option<NoteData>): (r: Repo)
    requires id in s.values
    ensures ValueOf(r, id) == v
    ensures forall other :: other != id ==> ValueOf(r, other) == ValueOf(s, other)
    ensures r.values.Keys == s.values.Keys
    ensures r == s.(values := r.values)
  {
    s.(values := s.values[id := v])
  }

  /** updateFromRemote, the remote observer of the getSynced mediator `h`:
      ignore null; otherwise write the remote note through the local path
      exactly when the mediator is empty or strictly older. */
  function UpdateFromRemote(s: Repo, h: Id, theirs: Option<NoteData>, now: int): (r: Repo)
    ensures theirs.None? ==> r == s
    ensures theirs.Some? && StrictlyNewer(ValueOf(s, h), theirs.value) ==>
              r == UpsertLocal(s, theirs.value, now)
    ensures theirs.Some? && !StrictlyNewer(ValueOf(s, h), theirs.value) ==> r == s
    ensures r == s.(store := r.store)
    ensures r.store != s.store ==>
              theirs.Some? && r.store[theirs.value.title] == Stamp(theirs.value, now)
  {
    match theirs
    case None => s
    case Some(their) =>
      if StrictlyNewer(ValueOf(s, h), their) then UpsertLocal(s, their, now) else s
  }

  /** The scheduled fetch `pending[i]` runs once: it leaves the queue and,
      when the server answered, posts the answer into its cell. */
  function FireFetch(s: Repo, i: nat, outcome: FetchOutcome): (r: Repo)
    requires i < |s.pending|
    ensures r.pending == s.pending[..i] + s.pending[i + 1..]
    ensures |r.pending| == |s.pending| - 1
    ensures outcome.Fetched? ==> r.values == s.values[s.pending[i].liveNote := outcome.note]
    ensures outcome.Failed? ==> r.values == s.values
    ensures r == s.(values := r.values, pending := r.pending)
  {
    var f := s.pending[i];
    var rest := s.pending[..i] + s.pending[i + 1..];
    match outcome
    case Fetched(n) => s.(values := s.values[f.liveNote := n], pending := rest)
    case Failed => s.(pending := rest)
  }

  // Each transition keeps the invariant.

  lemma UpsertLocalValid(s: Repo, n: NoteData, now: int)
    requires Valid(s)
    ensures Valid(UpsertLocal(s, n, now))
  {
  }

  lemma DeleteLocalValid(s: Repo, n: NoteData)
    requires Valid(s)
    ensures Valid(DeleteLocal(s, n))
  {
  }

  lemma UpsertSyncedValid(s: Repo, n: NoteData, now: int)
    requires Valid(s)
    ensures Valid(UpsertSynced(s, n, now))
  {
  }

  lemma UpsertRemoteValid(s: Repo, n: NoteData)
    requires Valid(s)
    ensures Valid(UpsertRemote(s, n))
  {
  }

  lemma RegisterValid(s: Repo, t: string)
    requires Valid(s)
    ensures Valid(Register(s, t))
  {
    var executor := if t in s.executors then s.executors[t] else s.nextId;
    var s1 := if t in s.executors then s else NewObject(s);
    assert Valid(s1);
    var s2 := NewCell(s1);
    NewCellValid(s1);
    var s3 := ScheduleFetch(s2, t, s1.nextId);
    ScheduleFetchValid(s2, t, s1.nextId);
    var s4 := NewCell(s3);
    NewCellValid(s3);
    PutTablesValid(s4, t, executor, s1.nextId, s2.nextId, s3.nextId);
    assert Register(s, t) == PutTables(s4, t, executor, s1.nextId, s2.nextId, s3.nextId);
  }

  lemma NewCellValid(s: Repo)
    requires Valid(s)
    ensures Valid(NewCell(s))
  {
  }

  lemma ScheduleFetchValid(s: Repo, t: string, cell: Id)
    requires Valid(s) && cell in s.values && cell !in s.sources
    ensures Valid(ScheduleFetch(s, t, cell))
  {
  }

  lemma PutTablesValid(s: Repo, t: string, executor: Id, liveNote: Id, future: Id, note: Id)
    requires Valid(s)
    requires executor < s.nextId && future < s.nextId
    requires liveNote in s.values && note in s.values
    ensures Valid(PutTables(s, t, executor, liveNote, future, note))
  {
  }

  lemma GetRemoteValid(s: Repo, t: string)
    requires Valid(s)
    ensures Valid(GetRemote(s, t).0)
  {
    RegisterValid(s, t);
  }

  lemma GetSyncedValid(s: Repo, t: string)
    requires Valid(s)
    ensures Valid(GetSynced(s, t).0)
  {
    var s0 := NewCell(s);
    NewCellValid(s);
    RegisterValid(s0, t);
    var s1 := Register(s0, t);
    RegisterEffects(s0, t);
    NoFetchInto(s, s1.pending, t, s1.liveNotes[t]);
    SubscribeValid(s1, s.nextId, Subscription(t, s1.notes[t]));
  }

  /** The earlier fetches and the one registration adds all target cells other
      than the next id. */
  lemma NoFetchInto(s: Repo, p: seq<Fetch>, t: string, cell: Id)
    requires Valid(s) && s.nextId < cell
    requires p == s.pending + [Fetch(t, cell)]
    ensures forall i :: 0 <= i < |p| ==> p[i].liveNote != s.nextId
  {
    forall i | 0 <= i < |p|
      ensures p[i].liveNote != s.nextId
    {
      if i < |s.pending| {
        assert p[i] == s.pending[i];
      }
    }
  }

  lemma SubscribeValid(s: Repo, h: Id, sub: Subscription)
    requires Valid(s) && h in s.values && sub.remote in s.values
    requires forall i :: 0 <= i < |s.pending| ==> s.pending[i].liveNote != h
    ensures Valid(Subscribe(s, h, sub))
  {
  }

  lemma PostValueValid(s: Repo, id: Id, v: Option<NoteData>)
    requires Valid(s) && id in s.values
    ensures Valid(PostValue(s, id, v))
  {
  }

  lemma UpdateFromRemoteValid(s: Repo, h: Id, theirs: Option<NoteData>, now: int)
    requires Valid(s)
    ensures Valid(UpdateFromRemote(s, h, theirs, now))
  {
  }

  lemma FireFetchValid(s: Repo, i: nat, outcome: FetchOutcome)
    requires Valid(s) && i < |s.pending|
    ensures Valid(FireFetch(s, i, outcome))
  {
    var r := FireFetch(s, i, outcome);
    forall j | 0 <= j < |r.pending|
      ensures r.pending[j].liveNote in r.values
    {
      if j < i {
        assert r.pending[j] == s.pending[j];
      } else {
        assert r.pending[j] == s.pending[j + 1];
      }
    }
  }

  /** A fetch posts only into its registration's cell, never into a getSynced
      mediator: whatever the server answers, the merged view and the store stay
      as they were. A remote note reaches the mediator only through the remote
      observer and the local store. */
  lemma FetchLeavesMergedView(s: Repo, i: nat, outcome: FetchOutcome, h: Id)
    requires Valid(s) && i < |s.pending| && h in s.sources
    ensures ValueOf(FireFetch(s, i, outcome), h) == ValueOf(s, h)
    ensures FireFetch(s, i, outcome).store == s.store
  {
  }

  /** A fresh id is in none of the tables, cells, subscriptions or fetches. */
  lemma FreshIdUnused(s: Repo, id: Id)
    requires Valid(s) && s.nextId <= id
    ensures id !in s.values && id !in s.sources
    ensures forall t :: t in s.executors ==> s.executors[t] != id && s.futures[t] != id
    ensures forall t :: t in s.liveNotes ==> s.liveNotes[t] != id
    ensures forall t :: t in s.notes ==> s.notes[t] != id
    ensures forall i :: 0 <= i < |s.pending| ==> s.pending[i].liveNote != id
  {
  }
}
