/** Sequences of calls into the repository and of observer callbacks, and
    what holds over every such sequence: the invariant, who writes the remote
    put log, that a title's executor is never replaced, and that fetches are
    scheduled only by registration, one per call. */
module Traces {
  import opened Notes
  import opened RepositorySpec

  /** One call into the repository or one callback it receives. */
  datatype Event =
    | CallGetSynced(title: string)
    | CallGetRemote(title: string)
    | CallUpsertSynced(note: NoteData, now: int)
    | CallUpsertLocal(note: NoteData, now: int)
    | CallDeleteLocal(note: NoteData)
    | CallUpsertRemote(note: NoteData)
    | OnPostValue(cell: Id, value: Option<NoteData>)                  // a note::postValue forwarder
    | OnUpdateFromRemote(handle: Id, theirs: Option<NoteData>, now: int)
    | OnFetch(index: nat, outcome: FetchOutcome)                      // a scheduled fetch runs

  /** The effect of one event; a callback on a cell that does not exist or a
      fetch that is not scheduled cannot happen and changes nothing. */
  function Step(s: Repo, e: Event): Repo {
    match e
    case CallGetSynced(t) => GetSynced(s, t).0
    case CallGetRemote(t) => GetRemote(s, t).0
    case CallUpsertSynced(n, now) => UpsertSynced(s, n, now)
    case CallUpsertLocal(n, now) => UpsertLocal(s, n, now)
    case CallDeleteLocal(n) => DeleteLocal(s, n)
    case CallUpsertRemote(n) => UpsertRemote(s, n)
    case OnPostValue(id, v) => if id in s.values then PostValue(s, id, v) else s
    case OnUpdateFromRemote(h, theirs, now) => UpdateFromRemote(s, h, theirs, now)
    case OnFetch(i, outcome) => if i < |s.pending| then FireFetch(s, i, outcome) else s
  }

  function Run(s: Repo, es: seq<Event>): Repo
    decreases |es|
  {
    if |es| == 0 then s else Run(Step(s, es[0]), es[1..])
  }

  /** The puts an event submits: the stamped note for upsertSynced, the note
      as given for upsertRemote, none for anything else. */
  function PutOf(e: Event): seq<NoteData> {
    match e
    case CallUpsertSynced(n, now) => [Stamp(n, now)]
    case CallUpsertRemote(n) => [n]
    case _ => []
  }

  function PutsOf(es: seq<Event>): seq<NoteData>
    decreases |es|
  {
    if |es| == 0 then [] else PutOf(es[0]) + PutsOf(es[1..])
  }

  /** Scheduled fetches of title `t`. */
  function CountFor(t: string, p: seq<Fetch>): nat
    decreases |p|
  {
    if |p| == 0 then 0 else (if p[0].title == t then 1 else 0) + CountFor(t, p[1..])
  }

  /** Calls that register `t`: getSynced(t) and getRemote(t). */
  function RegistrationOf(e: Event, t: string): nat {
    match e
    case CallGetSynced(u) => if u == t then 1 else 0
    case CallGetRemote(u) => if u == t then 1 else 0
    case _ => 0
  }

  function Registrations(es: seq<Event>, t: string): nat
    decreases |es|
  {
    if |es| == 0 then 0 else RegistrationOf(es[0], t) + Registrations(es[1..], t)
  }

  // The invariant holds along every run.

  lemma StepValid(s: Repo, e: Event)
    requires Valid(s)
    ensures Valid(Step(s, e))
  {
    match e
    case CallGetSynced(t) => GetSyncedValid(s, t);
    case CallGetRemote(t) => GetRemoteValid(s, t);
    case CallUpsertSynced(n, now) => UpsertSyncedValid(s, n, now);
    case CallUpsertLocal(n, now) => UpsertLocalValid(s, n, now);
    case CallDeleteLocal(n) => DeleteLocalValid(s, n);
    case CallUpsertRemote(n) => UpsertRemoteValid(s, n);
    case OnPostValue(id, v) => if id in s.values { PostValueValid(s, id, v); }
    case OnUpdateFromRemote(h, theirs, now) => UpdateFromRemoteValid(s, h, theirs, now);
    case OnFetch(i, outcome) => if i < |s.pending| { FireFetchValid(s, i, outcome); }
  }

  lemma {:induction false} RunValid(s: Repo, es: seq<Event>)
    requires Valid(s)
    ensures Valid(Run(s, es))
    decreases |es|
  {
    if |es| > 0 {
      StepValid(s, es[0]);
      RunValid(Step(s, es[0]), es[1..]);
    }
  }

  /** A repository built over a title-keyed database stays valid whatever is
      called on it. */
  lemma {:induction false} ConstructedRunsValid(dao: map<string, NoteData>, es: seq<Event>)
    requires forall t :: t in dao ==> dao[t].title == t
    ensures Valid(Run(Init(dao), es))
  {
    InitValid(dao);
    RunValid(Init(dao), es);
  }

  // The remote put log.

  lemma StepPuts(s: Repo, e: Event)
    ensures Step(s, e).puts == s.puts + PutOf(e)
  {
    match e
    case CallGetSynced(t) => GetSyncedEffects(s, t);
    case CallGetRemote(t) => GetRemoteEffects(s, t);
    case _ =>
  }

  /** The remote server receives exactly the puts of upsertSynced and
      upsertRemote calls, in call order. */
  lemma {:induction false} RunPuts(s: Repo, es: seq<Event>)
    ensures Run(s, es).puts == s.puts + PutsOf(es)
    decreases |es|
  {
    if |es| > 0 {
      var next := Step(s, es[0]);
      StepPuts(s, es[0]);
      RunPuts(next, es[1..]);
      PutsOfCons(s.puts, es);
    }
  }

  lemma PutsOfCons(p: seq<NoteData>, es: seq<Event>)
    requires |es| > 0
    ensures (p + PutOf(es[0])) + PutsOf(es[1..]) == p + PutsOf(es)
  {
    assert PutsOf(es) == PutOf(es[0]) + PutsOf(es[1..]);
    AppendAssoc(p, PutOf(es[0]), PutsOf(es[1..]));
  }

  lemma AppendAssoc(p: seq<NoteData>, a: seq<NoteData>, b: seq<NoteData>)
    ensures (p + a) + b == p + (a + b)
  {
  }

  lemma {:induction false} NoWritesNoPuts(es: seq<Event>)
    requires forall i :: 0 <= i < |es| ==> !es[i].CallUpsertSynced? && !es[i].CallUpsertRemote?
    ensures PutsOf(es) == []
    decreases |es|
  {
    if |es| > 0 {
      NoWritesNoPuts(es[1..]);
    }
  }

  /** Remote observations, fetches, reads and local writes never reach the
      server: in particular a remote note written through to the local store
      is not pushed back. */
  lemma {:induction false} OnlySyncedAndRemoteWritesPut(s: Repo, es: seq<Event>)
    requires forall i :: 0 <= i < |es| ==> !es[i].CallUpsertSynced? && !es[i].CallUpsertRemote?
    ensures Run(s, es).puts == s.puts
  {
    RunPuts(s, es);
    NoWritesNoPuts(es);
  }

  // Executors.

  lemma StepKeepsExecutor(s: Repo, e: Event, t: string)
    requires t in s.executors
    ensures t in Step(s, e).executors && Step(s, e).executors[t] == s.executors[t]
  {
    match e
    case CallGetSynced(u) =>
      GetSyncedEffects(s, u);
      RegisterEffects(NewCell(s), u);
    case CallGetRemote(u) => RegisterEffects(s, u);
    case _ =>
  }

  /** Once a title has an executor, every later registration of it reuses
      that executor. */
  lemma {:induction false} RunKeepsExecutor(s: Repo, es: seq<Event>, t: string)
    requires t in s.executors
    ensures t in Run(s, es).executors && Run(s, es).executors[t] == s.executors[t]
    decreases |es|
  {
    if |es| > 0 {
      StepKeepsExecutor(s, es[0], t);
      RunKeepsExecutor(Step(s, es[0]), es[1..], t);
    }
  }

  // Scheduled fetches.

  lemma {:induction false} CountConcat(t: string, a: seq<Fetch>, b: seq<Fetch>)
    ensures CountFor(t, a + b) == CountFor(t, a) + CountFor(t, b)
    decreases |a|
  {
    if |a| > 0 {
      assert (a + b)[0] == a[0];
      assert (a + b)[1..] == a[1..] + b;
      CountConcat(t, a[1..], b);
    } else {
      assert a + b == b;
    }
  }

  lemma CountRemove(t: string, p: seq<Fetch>, i: nat)
    requires i < |p|
    ensures CountFor(t, p[..i] + p[i + 1..]) + (if p[i].title == t then 1 else 0) == CountFor(t, p)
  {
    assert p == p[..i] + ([p[i]] + p[i + 1..]);
    CountConcat(t, p[..i], [p[i]] + p[i + 1..]);
    CountConcat(t, [p[i]], p[i + 1..]);
    CountConcat(t, p[..i], p[i + 1..]);
  }

  lemma AppendCount(t: string, p: seq<Fetch>, f: Fetch)
    ensures CountFor(t, p + [f]) == CountFor(t, p) + (if f.title == t then 1 else 0)
  {
    CountConcat(t, p, [f]);
    assert [f][1..] == [];
  }

  lemma GetSyncedSchedules(s: Repo, u: string, t: string)
    ensures CountFor(t, GetSynced(s, u).0.pending) == CountFor(t, s.pending) + (if u == t then 1 else 0)
  {
    GetSyncedEffects(s, u);
    AppendCount(t, s.pending, Fetch(u, GetSynced(s, u).0.liveNotes[u]));
  }

  lemma GetRemoteSchedules(s: Repo, u: string, t: string)
    ensures CountFor(t, GetRemote(s, u).0.pending) == CountFor(t, s.pending) + (if u == t then 1 else 0)
  {
    GetRemoteEffects(s, u);
    RegisterEffects(s, u);
    AppendCount(t, s.pending, Fetch(u, GetRemote(s, u).0.liveNotes[u]));
  }

  /** A read of `u` schedules one fetch of `u`; no other call or callback
      touches the queue. */
  lemma CallSchedules(s: Repo, e: Event, t: string)
    requires !e.OnFetch?
    ensures CountFor(t, Step(s, e).pending) == CountFor(t, s.pending) + RegistrationOf(e, t)
  {
    match e
    case CallGetSynced(u) => GetSyncedSchedules(s, u, t);
    case CallGetRemote(u) => GetRemoteSchedules(s, u, t);
    case _ =>
  }

  /** A fetch that runs leaves the queue and schedules nothing. */
  lemma FiringSchedulesNothing(s: Repo, i: nat, outcome: FetchOutcome, t: string)
    ensures CountFor(t, Step(s, OnFetch(i, outcome)).pending) <= CountFor(t, s.pending)
  {
    if i < |s.pending| {
      CountRemove(t, s.pending, i);
    }
  }

  /** Polling is not recurring: the fetches of `t` ever scheduled are one per
      registration of `t`, so without fetches running the queue grows by
      exactly that many, and running fetches only shrinks it. */
  lemma {:induction false} RunSchedules(s: Repo, es: seq<Event>, t: string)
    ensures CountFor(t, Run(s, es).pending) <= CountFor(t, s.pending) + Registrations(es, t)
    ensures (forall i :: 0 <= i < |es| ==> !es[i].OnFetch?) ==>
              CountFor(t, Run(s, es).pending) == CountFor(t, s.pending) + Registrations(es, t)
    decreases |es|
  {
    if |es| > 0 {
      if es[0].OnFetch? {
        FiringSchedulesNothing(s, es[0].index, es[0].outcome, t);
      } else {
        CallSchedules(s, es[0], t);
      }
      RunSchedules(Step(s, es[0]), es[1..], t);
      if forall i :: 0 <= i < |es| ==> !es[i].OnFetch? {
        assert forall i :: 0 <= i < |es[1..]| ==> !es[1..][i].OnFetch? by {
          forall i | 0 <= i < |es[1..]| ensures !es[1..][i].OnFetch? {
            assert es[1..][i] == es[i + 1];
          }
        }
      }
    }
  }

  // getSynced is not cached.

  /** Two getSynced calls for the same title give two different mediators,
      over two different remote mediators, sharing one executor, with two
      fetches scheduled. */
  lemma RepeatedGetSynced(s: Repo, t: string)
    ensures var (s1, h1) := GetSynced(s, t);
            var (s2, h2) := GetSynced(s1, t);
      && h1 != h2
      && s2.notes[t] != s1.notes[t]
      && s2.liveNotes[t] != s1.liveNotes[t]
      && s2.executors[t] == s1.executors[t]
      && s2.sources[h1] == s1.sources[h1]
      && |s2.pending| == |s.pending| + 2
  {
    var (s1, h1) := GetSynced(s, t);
    GetSyncedEffects(s, t);
    GetSyncedEffects(s1, t);
    RegisterEffects(NewCell(s1), t);
  }

  // Merging a remote note.

  /** When the getSynced mediator `h` for R's title holds L and a strictly
      newer R arrives, the store is overwritten with R restamped to the local
      clock, nothing is pushed, and once the local row `h` listens to is
      forwarded into it, `h` holds that restamped R. */
  lemma NewerRemoteReachesView(s: Repo, h: Id, l: NoteData, r: NoteData, now: int)
    requires h in s.values && s.values[h] == Some(l) && l.updatedAt < r.updatedAt
    requires h in s.sources && s.sources[h].title == r.title
    ensures var s1 := UpdateFromRemote(s, h, Some(r), now);
            var s2 := PostValue(s1, h, Some(s1.store[s1.sources[h].title]));
      && s1.store[r.title] == Stamp(r, now)
      && s1.puts == s.puts
      && ValueOf(s2, h) == Some(Stamp(r, now))
  {
  }

  /** When the mediator holds L and R with R.updatedAt <= L.updatedAt
      arrives, nothing changes at all. */
  lemma OlderOrEqualRemoteIgnored(s: Repo, h: Id, l: NoteData, r: NoteData, now: int)
    requires h in s.values && s.values[h] == Some(l) && r.updatedAt <= l.updatedAt
    ensures UpdateFromRemote(s, h, Some(r), now) == s
  {
  }

  /** The "Groceries" scenario: local {milk, 100}, remote {milk,eggs, 200},
      clock 500. The store ends with the remote body at time 500, not 200. */
  lemma GroceriesScenario(s: Repo, h: Id)
    requires s.store == map["Groceries" := NoteData("Groceries", "milk", 100)]
    requires h in s.values && s.values[h] == Some(NoteData("Groceries", "milk", 100))
    ensures var s1 := UpdateFromRemote(s, h, Some(NoteData("Groceries", "milk,eggs", 200)), 500);
      && s1.store["Groceries"] == NoteData("Groceries", "milk,eggs", 500)
      && s1.store["Groceries"].updatedAt != 200
      && s1.puts == s.puts
  {
  }
}
