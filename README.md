# SharedNotes note repository, modelled in Dafny

The SharedNotes Android app keeps notes, each with a title (its key), a body
and a last-update time. They are stored in a local database and on a remote
server. `NoteRepository` is the single place the app reads and writes notes.
It offers three kinds of operation:

- local operations, which go straight to the database (`getLocal`,
  `upsertLocal`, `deleteLocal`, `existsLocal`);
- remote operations: `getRemote` registers a per-title listener that fetches
  the note once after a delay; `upsertRemote` submits a put;
- synced operations: `upsertSynced` writes locally, then remotely.
  `getSynced` returns a mediator that forwards local changes and writes a
  remote note into the local store when that note is strictly newer than what
  the mediator holds.

The model has two layers.

- `RepositorySpec` (repository_spec.dfy) describes the whole state as one value
  `Repo`. That covers the database, the four per-title tables, the value of
  every LiveData cell, what each getSynced mediator listens to, the
  queue of scheduled fetches and the log of remote puts. Each operation or
  callback is a function on that value. An invariant `Valid` is proved to
  be kept by every one of them.
- `Repository.NoteRepository` (note_repository.dfy) is the class itself.
  The tables and the environment are fields, and the methods update those
  fields in the order the Java code does.
  - The public operations `GetSynced`, `UpsertSynced`, `UpsertLocal`,
    `DeleteLocal`, `GetRemote` and `UpsertRemote` are proved to keep `Valid`.
    So are `RegisterNoteListener` and the callbacks `UpdateFromRemote`,
    `PostValue` and `FireFetch`. Each of them is proved to move the state
    exactly as a `RepositorySpec` function does. That function has the same
    name, except that `RegisterNoteListener` matches `Register`.
  - `GetLocal` and `ExistsLocal` only read the store. Their contracts state
    the result directly.
  - The allocation and table-update helpers `NewExecutor`, `NewLiveData`,
    `ScheduleFetch`, `Subscribe` and `PutTables` are proved equal to the
    spec helpers `NewObject`, `NewCell`, `ScheduleFetch`, `Subscribe` and
    `PutTables`. They neither assume nor promise `Valid`, and `PutTables`
    alone can break it. Only the operation that calls them restores `Valid`.

`Notes` (notes.dfy) holds the note value, the stamping done by the write
path, and the strictly-newer test. It also has the mutable `Note` object,
because `upsertLocal` overwrites the caller's object in place.

`Traces` (traces.dfy) looks at arbitrary sequences of calls and callbacks.
It proves the following for every sequence:

- the invariant holds throughout;
- the put log is exactly the puts of `upsertSynced` and `upsertRemote`
  calls, so a remote note written through to the local store is never
  pushed back;
- a title's executor, once created, is never replaced;
- each `getRemote`/`getSynced` of a title schedules exactly one fetch of
  it, and nothing else schedules any.

Allocated objects (executors, futures, LiveData and MediatorLiveData cells)
are natural-number ids drawn from one counter. They are allocated in the
source's order: the getSynced mediator, then the executor (only when the
title has none), the fetch cell, the future, and the registration's mediator.
The clock (`System.currentTimeMillis`) is a parameter `now`.

## Behaviour as written

The model follows the code in three places where the comments in the same
file suggest otherwise.

- `getSynced` (lines 47-64) builds a new mediator on every call. Every call
  also goes through `registerNoteListener`. That makes a new cell and
  schedules a new fetch, and it overwrites the title's tables. Only the
  executor is reused. `Traces.RepeatedGetSynced` states this.
- The comment at line 104 speaks of polling every 3 seconds. But line 116
  calls `schedule`, which runs the fetch exactly once. It is not
  `scheduleAtFixedRate`. In the model a fetch leaves the queue when it runs,
  and `Traces.RunSchedules` proves that only registrations add fetches.
- The comment at line 42 says the newest version of a note is kept. But the
  remote observer adopts a note through `upsertLocal` (line 54), and that
  replaces the remote timestamp with the local clock (line 83).
  `Traces.GroceriesScenario` shows this. A remote note stamped 200, adopted
  with the clock at 500, is stored with time 500.

## Model

| member | source | states |
|---|---|---|
| Repository.NoteRepository.constructor | app/src/main/java/edu/ucsd/cse110/sharednotes/model/NoteRepository.java:25-31 | A new repository holds the given database. Its executor, future, LiveData and mediator tables are empty, nothing is scheduled or put, and the invariant holds. |
| RepositorySpec.Init | app/src/main/java/edu/ucsd/cse110/sharednotes/model/NoteRepository.java:25-31 | The state just after construction, defined by its body: the given database, four empty tables, no cells, subscriptions, fetches or puts, and the counter at 0. InitValid shows it satisfies the invariant. |
| RepositorySpec.InitValid | app/src/main/java/edu/ucsd/cse110/sharednotes/model/NoteRepository.java:25-31 | The initial state over a title-keyed database satisfies the invariant. |
| Repository.NoteRepository.GetSynced | app/src/main/java/edu/ucsd/cse110/sharednotes/model/NoteRepository.java:47-64 | Returns the next fresh id as the mediator. The new state is the getSynced transition of the old one, and the invariant is kept. |
| RepositorySpec.GetSynced | app/src/main/java/edu/ucsd/cse110/sharednotes/model/NoteRepository.java:47-64 | The getSynced transition, defined by its body: a new mediator cell, then getRemote, then the mediator's two sources recorded. It returns the new mediator. GetSyncedEffects and GetSyncedAllocatesFresh state what it promises. |
| RepositorySpec.GetSyncedEffects | app/src/main/java/edu/ucsd/cse110/sharednotes/model/NoteRepository.java:47-64 | The returned mediator is fresh and empty. It listens to the local note and to the mediator registered by this call. One fetch of the title is scheduled. An existing executor is kept. Other titles keep their table entries, and the only cells added are the mediator, the fetch cell and the remote mediator, all holding null. The store and the put log are untouched. |
| RepositorySpec.GetSyncedAllocatesFresh | app/src/main/java/edu/ucsd/cse110/sharednotes/model/NoteRepository.java:47-64 | In a valid state, the returned mediator and the remote mediator under it did not exist before the call, and no earlier mediator listens to that remote one. |
| Traces.RepeatedGetSynced | app/src/main/java/edu/ucsd/cse110/sharednotes/model/NoteRepository.java:47-64 | Two getSynced calls for one title return different mediators over different remote mediators and cells. They share one executor, the first subscription is kept, and two fetches are scheduled. |
| RepositorySpec.UpdateFromRemote | app/src/main/java/edu/ucsd/cse110/sharednotes/model/NoteRepository.java:50-56 | A null remote note changes nothing. A remote note is written locally, stamped with the clock, exactly when the mediator is empty or holds a strictly older note. Otherwise nothing changes. Only the store can change. |
| Repository.NoteRepository.UpdateFromRemote | app/src/main/java/edu/ucsd/cse110/sharednotes/model/NoteRepository.java:50-56 | Moves the state as the transition does. Cells and the put log are unchanged. An adopted note object is restamped in place, and an ignored one is untouched. |
| Traces.NewerRemoteReachesView | app/src/main/java/edu/ucsd/cse110/sharednotes/model/NoteRepository.java:50-61 | For the getSynced mediator of the note's title, a strictly newer remote note is stored stamped with the clock, and nothing is put. Once the local row the mediator listens to is forwarded into it, it holds the stamped note. |
| Notes.StrictlyNewer | app/src/main/java/edu/ucsd/cse110/sharednotes/model/NoteRepository.java:53 | The adoption test. An empty mediator always adopts, and a remote note with the same time as the mediator's is never adopted. |
| Traces.OlderOrEqualRemoteIgnored | app/src/main/java/edu/ucsd/cse110/sharednotes/model/NoteRepository.java:53-55 | A remote note that is not strictly newer than the mediator's leaves the whole state unchanged, ties included. |
| Traces.GroceriesScenario | app/src/main/java/edu/ucsd/cse110/sharednotes/model/NoteRepository.java:50-56 | Local (milk, 100) and remote (milk,eggs, 200), adopted with the clock at 500, store the remote body with time 500, not 200. Nothing is put. |
| Traces.OnlySyncedAndRemoteWritesPut | app/src/main/java/edu/ucsd/cse110/sharednotes/model/NoteRepository.java:50-56 | Over any sequence without upsertSynced or upsertRemote (remote observations included), the put log does not change. |
| RepositorySpec.UpsertSynced | app/src/main/java/edu/ucsd/cse110/sharednotes/model/NoteRepository.java:66-69 | The store is as after upsertLocal. Exactly one put is appended, and it is the stored, stamped note, with the clock as its time. Nothing else changes. |
| Repository.NoteRepository.UpsertSynced | app/src/main/java/edu/ucsd/cse110/sharednotes/model/NoteRepository.java:66-69 | The caller's note is restamped. The stored row and the one appended put are both that restamped object. |
| Repository.NoteRepository.GetLocal | app/src/main/java/edu/ucsd/cse110/sharednotes/model/NoteRepository.java:74-76 | Returns the stored note for the title exactly when one is stored. |
| Notes.Stamp | app/src/main/java/edu/ucsd/cse110/sharednotes/model/NoteRepository.java:82-85 | The written note keeps its title and body and carries the clock as its time. |
| RepositorySpec.UpsertLocal | app/src/main/java/edu/ucsd/cse110/sharednotes/model/NoteRepository.java:82-85 | Stores the stamped note under its title. Every other title keeps its row, and nothing outside the store changes. |
| Repository.NoteRepository.UpsertLocal | app/src/main/java/edu/ucsd/cse110/sharednotes/model/NoteRepository.java:82-85 | Overwrites the caller's note time with the clock. The state becomes the upsertLocal transition of the old one, and the invariant is kept. |
| RepositorySpec.DeleteLocal | app/src/main/java/edu/ucsd/cse110/sharednotes/model/NoteRepository.java:87-89 | The note's title is no longer stored. Every other title keeps its row, and nothing outside the store changes. |
| Repository.NoteRepository.DeleteLocal | app/src/main/java/edu/ucsd/cse110/sharednotes/model/NoteRepository.java:87-89 | Moves the state as the deleteLocal transition does and keeps the invariant. |
| Repository.NoteRepository.ExistsLocal | app/src/main/java/edu/ucsd/cse110/sharednotes/model/NoteRepository.java:91-93 | True exactly when a row for the title is stored. |
| Repository.NoteRepository.GetRemote | app/src/main/java/edu/ucsd/cse110/sharednotes/model/NoteRepository.java:98-111 | Registers the title and returns the mediator now stored for it, as the getRemote transition does. |
| RepositorySpec.GetRemote | app/src/main/java/edu/ucsd/cse110/sharednotes/model/NoteRepository.java:98-111 | The getRemote transition, defined by its body: register the title and return the mediator then stored for it. GetRemoteEffects states what it promises. |
| RepositorySpec.GetRemoteEffects | app/src/main/java/edu/ucsd/cse110/sharednotes/model/NoteRepository.java:98-111 | The returned mediator is the one stored under the title, and it is fresh. Exactly one fetch of the title is scheduled. The store and the put log are untouched. |
| Repository.NoteRepository.RegisterNoteListener | app/src/main/java/edu/ucsd/cse110/sharednotes/model/NoteRepository.java:113-125 | Moves the state as the registration transition does and keeps the invariant. |
| RepositorySpec.Register | app/src/main/java/edu/ucsd/cse110/sharednotes/model/NoteRepository.java:113-125 | The registerNoteListener transition, defined by its body: reuse the executor or make one, make a cell, schedule one fetch into it, make a mediator, then write the four tables. RegisterEffects and RegisterAllocatesFresh state what it promises. |
| RepositorySpec.RegisterEffects | app/src/main/java/edu/ucsd/cse110/sharednotes/model/NoteRepository.java:113-125 | All four tables hold the title. The executor is the old one if there was one, else fresh. The cell, future and mediator are always fresh, distinct and in that order. Other titles keep their entries. Exactly one fetch, into the new cell, is appended. Only the two new cells are added. |
| RepositorySpec.RegisterAllocatesFresh | app/src/main/java/edu/ucsd/cse110/sharednotes/model/NoteRepository.java:113-125 | In a valid state, the new cell and mediator are not existing cells. The new future is no title's future, and a new executor is no title's executor. No pending fetch targets the new cell. |
| RepositorySpec.RegisterValid | app/src/main/java/edu/ucsd/cse110/sharednotes/model/NoteRepository.java:113-125 | Registration keeps the invariant: the four tables keep equal key sets, every id they name was allocated, and the new fetch targets a cell that is not a getSynced mediator. |
| Traces.RunKeepsExecutor | app/src/main/java/edu/ucsd/cse110/sharednotes/model/NoteRepository.java:114 | Once a title has an executor, no later sequence of calls and callbacks replaces it. |
| RepositorySpec.FireFetch | app/src/main/java/edu/ucsd/cse110/sharednotes/model/NoteRepository.java:116 | A scheduled fetch runs once and leaves the queue. If the server answered, the answer (possibly null) is posted into its cell. If the fetch threw, nothing is posted. |
| RepositorySpec.FetchLeavesMergedView | app/src/main/java/edu/ucsd/cse110/sharednotes/model/NoteRepository.java:58-61 | In a valid state, a scheduled fetch never posts into a getSynced mediator. Whatever it returns (a note, null, or a failure), every mediator's value and the local store stay as they were: a remote note reaches the mediator only through the local store. |
| Repository.NoteRepository.FireFetch | app/src/main/java/edu/ucsd/cse110/sharednotes/model/NoteRepository.java:116 | Moves the state as the fetch transition does and keeps the invariant. |
| Traces.RunSchedules | app/src/main/java/edu/ucsd/cse110/sharednotes/model/NoteRepository.java:113-116 | Over any sequence, the fetches of a title grow by at most the registrations of that title. Without fetches running they grow by exactly that many. |
| RepositorySpec.PostValue | app/src/main/java/edu/ucsd/cse110/sharednotes/model/NoteRepository.java:119 | A forwarding observer sets its mediator's value. Every other cell keeps its value, and no cell is added. |
| Repository.NoteRepository.PostValue | app/src/main/java/edu/ucsd/cse110/sharednotes/model/NoteRepository.java:119 | The forwarder `note::postValue` sets one existing cell's value, as the transition does, and keeps the invariant. |
| RepositorySpec.NewObject | app/src/main/java/edu/ucsd/cse110/sharednotes/model/NoteRepository.java:114 | A new non-cell object, the executor, takes the next id. Only the counter advances. |
| Repository.NoteRepository.NewExecutor | app/src/main/java/edu/ucsd/cse110/sharednotes/model/NoteRepository.java:114 | A new executor takes the next id, and only the counter advances. |
| RepositorySpec.NewCell | app/src/main/java/edu/ucsd/cse110/sharednotes/model/NoteRepository.java:115 | A new cell takes the next id and holds null. Every other cell keeps its value, and only the cells and the counter change. |
| Repository.NoteRepository.NewLiveData | app/src/main/java/edu/ucsd/cse110/sharednotes/model/NoteRepository.java:115 | A new LiveData or mediator cell takes the next id and holds null, and only the cells and the counter change. The same step makes the mediators at lines 48 and 118. |
| RepositorySpec.ScheduleFetch | app/src/main/java/edu/ucsd/cse110/sharednotes/model/NoteRepository.java:116 | One fetch of the title into the given cell is appended to the queue, and its future takes the next id. Nothing else changes. |
| Repository.NoteRepository.ScheduleFetch | app/src/main/java/edu/ucsd/cse110/sharednotes/model/NoteRepository.java:116 | One fetch of the title into the given cell joins the queue, and its future takes the next id. |
| RepositorySpec.Subscribe | app/src/main/java/edu/ucsd/cse110/sharednotes/model/NoteRepository.java:59-61 | Mediator `h` is recorded as listening to the given title's row and remote mediator. Nothing else changes. |
| Repository.NoteRepository.Subscribe | app/src/main/java/edu/ucsd/cse110/sharednotes/model/NoteRepository.java:59-61 | Records that mediator `h` listens to the local row of the title and to the given remote mediator. Nothing else changes. |
| RepositorySpec.PutTables | app/src/main/java/edu/ucsd/cse110/sharednotes/model/NoteRepository.java:121-124 | The four tables map the title to the given ids, and nothing else changes. PutTablesValid gives the conditions under which it keeps the invariant. |
| Repository.NoteRepository.PutTables | app/src/main/java/edu/ucsd/cse110/sharednotes/model/NoteRepository.java:121-124 | The four tables map the title to the given executor, cell, future and mediator. Nothing else changes. |
| RepositorySpec.UpsertRemote | app/src/main/java/edu/ucsd/cse110/sharednotes/model/NoteRepository.java:127-131 | Appends exactly one put, carrying the note, after the earlier puts. Nothing else changes. |
| Repository.NoteRepository.UpsertRemote | app/src/main/java/edu/ucsd/cse110/sharednotes/model/NoteRepository.java:127-131 | Appends the note's current value to the put log, as the transition does. |
| Traces.RunPuts | app/src/main/java/edu/ucsd/cse110/sharednotes/model/NoteRepository.java:127-131 | Over any sequence, the put log grows by the stamped notes of upsertSynced calls and the notes of upsertRemote calls, in call order, and by nothing else. |
| Traces.ConstructedRunsValid | app/src/main/java/edu/ucsd/cse110/sharednotes/model/NoteRepository.java:25-131 | A repository built over a title-keyed database satisfies the invariant after any sequence of calls and callbacks. |

## Left out

- The note API (`NoteAPI`: HTTP, JSON, the blocking `getNoteAsync` and its timeout) is not part of this model. A fetch's result comes in as a parameter, `Fetched(note)` or `Failed`. A put is an entry in the put log.
- Executor threads and the 3-second delay are not modelled. Fetches are a queue, and any pending fetch may run at any point.
- LiveData delivery is not modelled: the main-thread hand-off of `postValue`, and observers firing only while the LiveData is active. Each callback is an explicit operation: `PostValue`, `UpdateFromRemote` and `FireFetch`.
- PostValue: the model does not record that the mediator of a registration forwards its fetch cell (line 119). Nor does it record that a getSynced mediator forwards the local row (line 59). PostValue may be applied to any existing cell.
- RepositorySpec.UpdateFromRemote: the subscriptions that `Subscribe` records are read by no transition. The observer accepts any mediator id `h`, not only one that has a remote subscription.
- Notes are values in the model, so aliasing of the one mutable `Note` object is not modelled. Cells and the put log hold snapshots, taken when a value is posted or a put is submitted. Three things follow.
  - The object adopted at line 54 is the object the fetch posted into its cell (line 116) and that line 119 forwarded. So the restamp at line 83 also changes what those cells hold. `Repository.NoteRepository.UpdateFromRemote` leaves the cells unchanged instead.
  - A caller may pass `upsertLocal` or `upsertSynced` the very object it observed from a mediator. Java then restamps the mediator's current value at once, and the test at line 53 reads it. The model changes that value only through an explicit `PostValue`.
  - `putNoteAsync` serialises the note on a new thread. So the server gets the fields as they are when that thread runs, and puts may arrive in any order. The model logs the note's value at the call, in call order.
- Repository.NoteRepository.GetLocal: returns the row's current value, not a LiveData that tracks it.
- The database (`NoteDao`) is a map from title to note. `upsert` overwrites the row under the note's title, and `delete` removes the row with the note's title. NoteDao and Note.java are not part of this model, so keying by title is an assumption.
- `getAllLocal` (lines 78-80): it returns the DAO's list-valued LiveData, and it is not modelled.
- Background threads are never stopped, so futures and superseded cells stay allocated. The model never deallocates ids either.
- Integers are unbounded. The millisecond clock and `updatedAt` are `int`, and Java `long` overflow is not modelled.
