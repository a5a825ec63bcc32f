/**
 Loading equality delete files, as a protocol of any number of loader jobs and of queries for their predicates.
 A loader reserves the file, then replaces the notifier, reads the file, and a spawned task stores the predicate
 and fires the second notifier. A query may catch the file in any of these states.
 */
module EqualityLoad {
  import opened Prelude
  import opened Predicates
  import opened DeleteFilters

  /** The predicate that parsing each equality delete file yields. */
  type Parsed = map<string, Predicate>

  function PredicateOf(c: Parsed, file: string): Predicate { if file in c then c[file] else AlwaysTrue }

  datatype LoadPhase =
    | Idle
    | Skipped                             // another job owns the file
    | Reserved                            // try_start_eq_del_load returned a notifier
    | Reading(notifier: Notifier)         // insert_equality_delete done, the file is being read
    | Failed
    | Sent(notifier: Notifier)            // the predicate is in the channel of the spawned task
    | Stored(notifier: Notifier)          // the spawned task has stored it
    | Finished                            // and fired its notifier

  datatype Loader = Loader(file: string, phase: LoadPhase)

  datatype QueryPhase =
    | Waiting(notifier: Notifier)
    | Answered(answer: Option<Predicate>)
    | Broken                              // the `unreachable!` after the wait

  datatype Query = Query(file: string, phase: QueryPhase)

  /** `inserted` is the history of the notifiers created by `insert_equality_delete`, with their files. */
  datatype World = World(
    filter: FilterState,
    fired: set<Notifier>,
    loaders: map<nat, Loader>,
    queries: map<nat, Query>,
    loads: seq<(string, nat)>,
    inserted: map<Notifier, string>)

  const Initial := World(Empty, {}, map[], map[], [], map[])

  datatype Action =
    | Spawn(job: nat, file: string)
    | Reserve(job: nat)
    | Insert(job: nat)
    | Send(job: nat)
    | Fail(job: nat)
    | Store(job: nat)
    | Notify(job: nat)
    | Ask(query: nat, file: string)       // the first read of a query
    | Resume(query: nat)                  // the second read, after notified() returned
    | Other(filter: FilterState)          // positional deletes move on in the same filter

  predicate Enabled(w: World, a: Action) {
    match a
    case Spawn(j, _) => j !in w.loaders
    case Reserve(j) => j in w.loaders && w.loaders[j].phase.Idle?
    case Insert(j) => j in w.loaders && w.loaders[j].phase.Reserved?
    case Send(j) => j in w.loaders && w.loaders[j].phase.Reading?
    case Fail(j) => j in w.loaders && w.loaders[j].phase.Reading?
    case Store(j) => j in w.loaders && w.loaders[j].phase.Sent?
    case Notify(j) => j in w.loaders && w.loaders[j].phase.Stored?
    case Ask(q, _) => q !in w.queries
    case Resume(q) => q in w.queries && w.queries[q].phase.Waiting? && w.queries[q].phase.notifier in w.fired
    case Other(f) => f.equality == w.filter.equality && f.notifiers >= w.filter.notifiers
  }

  function To(w: World, j: nat, p: LoadPhase): map<nat, Loader>
    requires j in w.loaders
  {
    w.loaders[j := w.loaders[j].(phase := p)]
  }

  function Apply(w: World, a: Action, c: Parsed): World
    requires Enabled(w, a)
  {
    match a
    case Spawn(j, file) => w.(loaders := w.loaders[j := Loader(file, Idle)])
    case Reserve(j) =>
      var file := w.loaders[j].file;
      var (filter, notify) := TryStartEq(w.filter, file);
      if notify.None? then w.(filter := filter, loaders := To(w, j, Skipped))
      else w.(filter := filter, loaders := To(w, j, Reserved), loads := w.loads + [(file, j)])
    case Insert(j) =>
      var file := w.loaders[j].file;
      var (filter, n) := InsertEq(w.filter, file);
      w.(filter := filter, loaders := To(w, j, Reading(n)), inserted := w.inserted[n := file])
    case Send(j) => w.(loaders := To(w, j, Sent(w.loaders[j].phase.notifier)))
    case Fail(j) => w.(loaders := To(w, j, Failed))
    case Store(j) =>
      var file := w.loaders[j].file;
      w.(filter := StoreEq(w.filter, file, PredicateOf(c, file)),
         loaders := To(w, j, Stored(w.loaders[j].phase.notifier)))
    case Notify(j) => w.(fired := w.fired + {w.loaders[j].phase.notifier}, loaders := To(w, j, Finished))
    case Ask(q, file) =>
      var phase := match LookupEq(w.filter, file)
        case None => Answered(None)
        case Some(EqLoaded(p)) => Answered(Some(p))
        case Some(EqLoading(n)) => Waiting(n);
      w.(queries := w.queries[q := Query(file, phase)])
    case Resume(q) =>
      var file := w.queries[q].file;
      var phase := match LookupEq(w.filter, file)
        case Some(EqLoaded(p)) => Answered(Some(p))
        case _ => Broken;
      w.(queries := w.queries[q := Query(file, phase)])
    case Other(f) => w.(filter := f)
  }

  // ---- the life of a file in the filter ----

  /** 0 absent, 1 Loading under the reserving notifier, 2 Loading under the inserted one, 3 Loaded. */
  function Stage(w: World, file: string): nat {
    match LookupEq(w.filter, file)
    case None => 0
    case Some(EqLoading(n)) => if n in w.inserted then 2 else 1
    case Some(EqLoaded(_)) => 3
  }

  /** Between two moments the file's state is the same, or it has moved on to a later stage. */
  predicate Advances(w: World, v: World, file: string) {
    Stage(w, file) < Stage(v, file) || LookupEq(w.filter, file) == LookupEq(v.filter, file)
  }

  // ---- the invariant ----

  ghost predicate StatesOk(w: World, c: Parsed) {
    && (forall f :: f in w.filter.equality && w.filter.equality[f].EqLoaded? ==>
          w.filter.equality[f].p == PredicateOf(c, f))
    && (forall f :: f in w.filter.equality && w.filter.equality[f].EqLoading? ==>
          w.filter.equality[f].notify < w.filter.notifiers &&
          (w.filter.equality[f].notify in w.inserted ==> w.inserted[w.filter.equality[f].notify] == f))
  }

  ghost predicate HistoryOk(w: World) {
    && (forall n :: n in w.inserted ==> n < w.filter.notifiers)
    && (forall n :: n in w.fired ==> n in w.inserted && Stage(w, w.inserted[n]) == 3)
    && (forall i, k :: 0 <= i < k < |w.loads| ==> w.loads[i].0 != w.loads[k].0)
    && (forall i :: 0 <= i < |w.loads| ==> w.loads[i].0 in w.filter.equality)
  }

  ghost predicate LoaderOk(w: World, j: nat, l: Loader) {
    && (l.phase.Skipped? ==> l.file in w.filter.equality)
    && (l.phase.Reserved? || l.phase.Reading? || l.phase.Failed? || l.phase.Sent? ==> (l.file, j) in w.loads)
    && (l.phase.Reserved? ==> Stage(w, l.file) == 1)
    && (l.phase.Reading? || l.phase.Failed? || l.phase.Sent? ==> Stage(w, l.file) == 2)
    && (l.phase.Reading? || l.phase.Sent? || l.phase.Stored? ==>
          l.phase.notifier in w.inserted && w.inserted[l.phase.notifier] == l.file)
    && (l.phase.Stored? || l.phase.Finished? ==> Stage(w, l.file) == 3)
  }

  ghost predicate QueryOk(w: World, c: Parsed, q: Query) {
    && !q.phase.Broken?
    && (q.phase.Waiting? ==>
          && q.phase.notifier < w.filter.notifiers
          && (q.phase.notifier in w.inserted ==> w.inserted[q.phase.notifier] == q.file))
    && (q.phase.Answered? && q.phase.answer.Some? ==> q.phase.answer.value == PredicateOf(c, q.file))
  }

  ghost predicate Inv(w: World, c: Parsed) {
    && StatesOk(w, c) && HistoryOk(w)
    && (forall j :: j in w.loaders ==> LoaderOk(w, j, w.loaders[j]))
    && (forall q :: q in w.queries ==> QueryOk(w, c, w.queries[q]))
  }

  /** One action moves every file by at most one stage, and nothing goes back. */
  ghost predicate Steps(w: World, v: World) {
    && (forall f :: Advances(w, v, f) && Stage(v, f) <= Stage(w, f) + 1)
    && w.fired <= v.fired
    && w.loads <= v.loads
    && w.filter.notifiers <= v.filter.notifiers
    && (forall n :: n in w.inserted ==> n in v.inserted && v.inserted[n] == w.inserted[n])
    && (forall n :: n in v.inserted && n !in w.inserted ==> n >= w.filter.notifiers)
  }

  /** A loader that does not act keeps its part of the invariant, provided its file does not move while it owns it. */
  lemma {:induction false} LoaderFrame(w: World, v: World, j: nat, l: Loader)
    requires Steps(w, v) && LoaderOk(w, j, l)
    requires l.phase.Reserved? || l.phase.Reading? || l.phase.Failed? || l.phase.Sent? ==>
             Stage(v, l.file) == Stage(w, l.file)
    ensures LoaderOk(v, j, l)
  {
    assert forall x :: x in w.loads ==> x in v.loads;
    assert Advances(w, v, l.file);
    assert Stage(w, l.file) <= Stage(v, l.file);
  }

  lemma {:induction false} OwnersDiffer(w: World, j: nat, k: nat)
    requires HistoryOk(w) && j in w.loaders && k in w.loaders && j != k
    requires (w.loaders[j].file, j) in w.loads && (w.loaders[k].file, k) in w.loads
    ensures w.loaders[j].file != w.loaders[k].file
  {
    var a :| 0 <= a < |w.loads| && w.loads[a] == (w.loaders[j].file, j);
    var b :| 0 <= b < |w.loads| && w.loads[b] == (w.loaders[k].file, k);
  }

  /** Actions that leave the equality map alone. */
  lemma {:induction false} PhaseOnly(w: World, v: World, c: Parsed, acting: nat)
    requires Inv(w, c)
    requires v.filter.equality == w.filter.equality && v.filter.notifiers >= w.filter.notifiers
    requires v.inserted == w.inserted && v.loads == w.loads && w.fired <= v.fired
    requires forall n :: n in v.fired ==> n in w.fired || (n in w.inserted && Stage(w, w.inserted[n]) == 3)
    requires forall j :: j in v.loaders ==>
                           if j == acting then LoaderOk(w, j, v.loaders[j])
                           else j in w.loaders && v.loaders[j] == w.loaders[j]
    requires forall q :: q in v.queries ==> QueryOk(w, c, v.queries[q])
    ensures Inv(v, c) && Steps(w, v)
  {
    forall f ensures Stage(v, f) == Stage(w, f) && LookupEq(v.filter, f) == LookupEq(w.filter, f) {}
    assert Steps(w, v);
    forall j | j in v.loaders ensures LoaderOk(v, j, v.loaders[j]) { LoaderFrame(w, v, j, v.loaders[j]); }
    assert forall q :: q in v.queries ==> QueryOk(v, c, v.queries[q]);
  }

  /** Actions of the owner that move its file on by one stage. */
  lemma {:induction false} MovesOwn(w: World, v: World, c: Parsed, j: nat)
    requires Inv(w, c) && Steps(w, v) && StatesOk(v, c) && HistoryOk(v)
    requires j in w.loaders && v.queries == w.queries && v.loaders.Keys == w.loaders.Keys
    requires (w.loaders[j].file, j) in w.loads || w.loaders[j].file !in w.filter.equality
    requires forall f :: f != w.loaders[j].file ==> Stage(v, f) == Stage(w, f)
    requires forall k :: k in w.loaders && k != j ==> v.loaders[k] == w.loaders[k]
    requires LoaderOk(v, j, v.loaders[j])
    ensures Inv(v, c)
  {
    forall k | k in v.loaders ensures LoaderOk(v, k, v.loaders[k]) {
      if k != j {
        var l := w.loaders[k];
        assert LoaderOk(w, k, l);
        if l.phase.Reserved? || l.phase.Reading? || l.phase.Failed? || l.phase.Sent? {
          if (w.loaders[j].file, j) in w.loads { OwnersDiffer(w, j, k); }
          else { OwnedIsKnown(w, k); }
        }
        LoaderFrame(w, v, k, l);
      }
    }
    assert forall q :: q in v.queries ==> QueryOk(v, c, v.queries[q]);
  }

  lemma {:induction false} OwnedIsKnown(w: World, k: nat)
    requires HistoryOk(w) && k in w.loaders && (w.loaders[k].file, k) in w.loads
    ensures w.loaders[k].file in w.filter.equality
  {
    var a :| 0 <= a < |w.loads| && w.loads[a] == (w.loaders[k].file, k);
  }

  /** Writing the entry of one file leaves the others where they are. */
  lemma {:induction false} OthersStay(w: World, v: World, file: string, c: Parsed)
    requires StatesOk(w, c)
    requires forall f :: f != file ==> LookupEq(v.filter, f) == LookupEq(w.filter, f)
    requires forall n :: n < w.filter.notifiers ==> (n in v.inserted <==> n in w.inserted)
    ensures forall f :: f != file ==> Stage(v, f) == Stage(w, f)
  {
    forall f | f != file ensures Stage(v, f) == Stage(w, f) {
      assert LookupEq(v.filter, f) == LookupEq(w.filter, f);
    }
  }

  /** The three actions with which a loader moves its own file on, by one stage. */
  predicate MovesFile(w: World, a: Action) {
    match a
    case Reserve(j) => j in w.loaders && w.loaders[j].file !in w.filter.equality
    case Insert(_) => true
    case Store(_) => true
    case _ => false
  }

  lemma {:induction false} FileMoves(w: World, a: Action, c: Parsed)
    requires Inv(w, c) && Enabled(w, a) && MovesFile(w, a)
    ensures var v, j := Apply(w, a, c), a.job;
            && (forall f :: f != w.loaders[j].file ==> Stage(v, f) == Stage(w, f))
            && Stage(v, w.loaders[j].file) == Stage(w, w.loaders[j].file) + 1
            && LoaderOk(v, j, v.loaders[j])
  {
    hide QueryOk;
    var v, j := Apply(w, a, c), a.job;
    assert LoaderOk(w, j, w.loaders[j]);
    OthersStay(w, v, w.loaders[j].file, c);
  }

  lemma {:induction false} StatesStay(w: World, a: Action, c: Parsed)
    requires Inv(w, c) && Enabled(w, a) && MovesFile(w, a)
    ensures StatesOk(Apply(w, a, c), c)
  {
    hide QueryOk, Stage, LoaderOk;
  }

  lemma {:induction false} HistoryGrows(w: World, a: Action, c: Parsed)
    requires Inv(w, c) && Enabled(w, a) && MovesFile(w, a)
    ensures HistoryOk(Apply(w, a, c))
  {
    hide QueryOk, Stage, StatesOk;
    FileMoves(w, a, c);
    assert LoaderOk(w, a.job, w.loaders[a.job]);
    FileStage(w, w.loaders[a.job].file);
  }

  lemma {:induction false} FileStage(w: World, file: string)
    ensures Stage(w, file) <= 3 && (Stage(w, file) == 0 <==> file !in w.filter.equality)
  {
  }

  lemma {:induction false} FileSteps(w: World, a: Action, c: Parsed)
    requires Inv(w, c) && Enabled(w, a) && MovesFile(w, a)
    ensures Steps(w, Apply(w, a, c))
  {
    hide QueryOk, Stage, LoaderOk, StatesOk;
    FileMoves(w, a, c);
    var v, j := Apply(w, a, c), a.job;
    assert forall f :: f != w.loaders[j].file ==> LookupEq(v.filter, f) == LookupEq(w.filter, f);
  }

  lemma {:induction false} OwnerKeeps(w: World, a: Action, c: Parsed)
    requires Inv(w, c) && Enabled(w, a) && MovesFile(w, a)
    ensures Inv(Apply(w, a, c), c) && Steps(w, Apply(w, a, c))
  {
    hide QueryOk, HistoryOk, StatesOk, Steps, Stage;
    FileMoves(w, a, c);
    StatesStay(w, a, c);
    HistoryGrows(w, a, c);
    FileSteps(w, a, c);
    assert LoaderOk(w, a.job, w.loaders[a.job]);
    MovesOwn(w, Apply(w, a, c), c, a.job);
  }

  /** Every action keeps the invariant and moves files only forward, one stage at a time. */
  lemma {:induction false} ActionKeeps(w: World, a: Action, c: Parsed)
    requires Inv(w, c) && Enabled(w, a)
    ensures Inv(Apply(w, a, c), c) && Steps(w, Apply(w, a, c))
  {
    hide Inv, Steps, Apply, Enabled;
    if MovesFile(w, a) { OwnerKeeps(w, a, c); }
    else if a.Ask? || a.Resume? { QueryKeeps(w, a, c); }
    else { LoaderKeeps(w, a, c); }
  }

  lemma {:induction false} LoaderKeeps(w: World, a: Action, c: Parsed)
    requires Inv(w, c) && Enabled(w, a)
    requires !MovesFile(w, a) && !a.Ask? && !a.Resume?
    ensures Inv(Apply(w, a, c), c) && Steps(w, Apply(w, a, c))
  {
    hide StatesOk, HistoryOk, QueryOk, Steps, Stage;
    var j := if a.Other? then 0 else a.job;
    if j in w.loaders { assert LoaderOk(w, j, w.loaders[j]); }
    PhaseOnly(w, Apply(w, a, c), c, j);
  }

  lemma {:induction false} QueryKeeps(w: World, a: Action, c: Parsed)
    requires Inv(w, c) && Enabled(w, a) && (a.Ask? || a.Resume?)
    ensures Inv(Apply(w, a, c), c) && Steps(w, Apply(w, a, c))
  {
    hide LoaderOk, Steps;
    if a.Resume? { assert QueryOk(w, c, w.queries[a.query]); }
    PhaseOnly(w, Apply(w, a, c), c, 0);
  }

  // ---- over whole runs ----

  ghost predicate Run(ws: seq<World>, acts: seq<Action>, c: Parsed) {
    && |ws| == |acts| + 1 && ws[0] == Initial
    && forall i :: 0 <= i < |acts| ==> Enabled(ws[i], acts[i]) && ws[i + 1] == Apply(ws[i], acts[i], c)
  }

  lemma {:induction false} RunKeeps(ws: seq<World>, acts: seq<Action>, c: Parsed, i: nat)
    requires Run(ws, acts, c) && i < |ws|
    ensures Inv(ws[i], c)
  {
    if i > 0 {
      hide Inv, Steps, Apply, Enabled;
      RunKeeps(ws, acts, c, i - 1);
      ActionKeeps(ws[i - 1], acts[i - 1], c);
    }
  }

  /** No file's stage ever falls. */
  lemma {:induction false} StepsMonotone(w: World, v: World, file: string)
    requires Steps(w, v)
    ensures Stage(w, file) <= Stage(v, file) && Advances(w, v, file)
  {
    assert Advances(w, v, file);
  }

  /**
   Over any run a file only goes absent, Loading, Loading under a new notifier, Loaded: between any two moments
   its state is unchanged or at a later stage.
   */
  lemma {:induction false} FileMovesForward(ws: seq<World>, acts: seq<Action>, c: Parsed, i: nat, k: nat, file: string)
    requires Run(ws, acts, c) && i <= k < |ws|
    ensures Stage(ws[i], file) < Stage(ws[k], file) || LookupEq(ws[i].filter, file) == LookupEq(ws[k].filter, file)
    ensures Stage(ws[i], file) <= Stage(ws[k], file) && Advances(ws[i], ws[k], file)
    decreases k
  {
    hide *;
    if i == k {
      AdvancesSelf(ws[i], file);
    } else {
      FileMovesForward(ws, acts, c, i, k - 1, file);
      RunStep(ws, acts, c, k - 1);
      StepsMonotone(ws[k - 1], ws[k], file);
      AdvancesTransitive(ws[i], ws[k - 1], ws[k], file);
    }
  }

  lemma {:induction false} RunStep(ws: seq<World>, acts: seq<Action>, c: Parsed, i: nat)
    requires Run(ws, acts, c) && i + 1 < |ws|
    ensures Steps(ws[i], ws[i + 1])
  {
    hide Inv, Steps, Apply, Enabled;
    RunKeeps(ws, acts, c, i);
    ActionKeeps(ws[i], acts[i], c);
  }

  lemma {:induction false} AdvancesSelf(w: World, file: string)
    ensures Advances(w, w, file)
  {
  }

  lemma {:induction false} AdvancesTransitive(u: World, v: World, w: World, file: string)
    requires Stage(u, file) <= Stage(v, file) <= Stage(w, file)
    requires Advances(u, v, file) && Advances(v, w, file)
    ensures Advances(u, w, file)
    ensures Stage(u, file) < Stage(w, file) || LookupEq(u.filter, file) == LookupEq(w.filter, file)
  {
  }

  /** The action was a reservation, and the filter granted it. */
  predicate Granted(w: World, a: Action) {
    a.Reserve? && Enabled(w, a) && TryStartEq(w.filter, w.loaders[a.job].file).1.Some?
  }

  /** At most one job ever starts the load of a given file. */
  lemma {:induction false} AtMostOneLoad(ws: seq<World>, acts: seq<Action>, c: Parsed, i: nat, k: nat)
    requires Run(ws, acts, c) && i < k < |acts|
    requires Granted(ws[i], acts[i]) && Granted(ws[k], acts[k])
    ensures ws[i].loaders[acts[i].job].file != ws[k].loaders[acts[k].job].file
  {
    var file := ws[i].loaders[acts[i].job].file;
    assert Stage(ws[i + 1], file) > 0;
    FileMovesForward(ws, acts, c, i + 1, k, file);
  }

  /** A stored predicate is the one its loader sent, and it never changes. */
  lemma {:induction false} LoadedNeverChanges(
      ws: seq<World>, acts: seq<Action>, c: Parsed, i: nat, k: nat, file: string)
    requires Run(ws, acts, c) && i <= k < |ws| && Stage(ws[i], file) == 3
    ensures LookupEq(ws[k].filter, file) == Some(EqLoaded(PredicateOf(c, file)))
  {
    FileMovesForward(ws, acts, c, i, k, file);
    RunKeeps(ws, acts, c, k);
  }

  /** Every query is answered with the predicate its file's loader sent, and none runs into the unreachable branch. */
  lemma {:induction false} AnswersAreTheLoaders(ws: seq<World>, acts: seq<Action>, c: Parsed, i: nat, q: nat)
    requires Run(ws, acts, c) && i < |ws| && q in ws[i].queries
    ensures var query := ws[i].queries[q];
            && !query.phase.Broken?
            && (query.phase.Answered? && query.phase.answer.Some? ==>
                query.phase.answer.value == PredicateOf(c, query.file))
  {
    RunKeeps(ws, acts, c, i);
  }

  /** Once a job has gone past its reservation, a query for its file never reports the predicate as missing. */
  lemma {:induction false} NeverMissingAfterLoad(ws: seq<World>, acts: seq<Action>, c: Parsed, i: nat, k: nat, j: nat)
    requires Run(ws, acts, c) && i <= k < |acts| && j in ws[i].loaders && !ws[i].loaders[j].phase.Idle?
    requires acts[k].Ask? && acts[k].file == ws[i].loaders[j].file
    ensures ws[k + 1].queries[acts[k].query].phase != Answered(None)
  {
    RunKeeps(ws, acts, c, i);
    assert LoaderOk(ws[i], j, ws[i].loaders[j]);
    FileMovesForward(ws, acts, c, i, k, acts[k].file);
    assert Stage(ws[k], acts[k].file) > 0;
  }

  lemma {:induction false} QueryStays(w: World, a: Action, c: Parsed, q: nat)
    requires Enabled(w, a) && q in w.queries && w.queries[q].phase != Answered(None)
    ensures var v := Apply(w, a, c);
            q in v.queries && v.queries[q].file == w.queries[q].file && v.queries[q].phase != Answered(None)
  {
  }

  lemma {:induction false} QueryStaysOn(ws: seq<World>, acts: seq<Action>, c: Parsed, i: nat, k: nat, q: nat)
    requires Run(ws, acts, c) && i <= k < |ws| && q in ws[i].queries && ws[i].queries[q].phase != Answered(None)
    ensures q in ws[k].queries && ws[k].queries[q].file == ws[i].queries[q].file &&
            ws[k].queries[q].phase != Answered(None)
    decreases k
  {
    hide Apply, Enabled;
    if i < k {
      QueryStaysOn(ws, acts, c, i, k - 1, q);
      QueryStays(ws[k - 1], acts[k - 1], c, q);
    }
  }

  /** The query was asked, by moment `n`, when some job had already gone past the reservation of the file. */
  ghost predicate AskedAfterLoad(ws: seq<World>, acts: seq<Action>, n: nat, q: nat, file: string)
    requires |ws| == |acts| + 1 && n < |ws|
  {
    exists k: nat, j: nat :: AskedAt(ws, acts, n, q, file, k, j)
  }

  predicate AskedAt(ws: seq<World>, acts: seq<Action>, n: nat, q: nat, file: string, k: nat, j: nat)
    requires |ws| == |acts| + 1 && n < |ws|
  {
    && k < n && acts[k] == Ask(q, file)
    && j in ws[k].loaders && ws[k].loaders[j].file == file && !ws[k].loaders[j].phase.Idle?
  }

  /** An answer to such a query is the predicate the file's loader sent. */
  lemma {:induction false} AnsweredAfterLoad(ws: seq<World>, acts: seq<Action>, c: Parsed, n: nat, q: nat, file: string)
    requires Run(ws, acts, c) && n < |ws| && AskedAfterLoad(ws, acts, n, q, file)
    ensures q in ws[n].queries && ws[n].queries[q].file == file
    ensures ws[n].queries[q].phase.Answered? ==> ws[n].queries[q].phase == Answered(Some(PredicateOf(c, file)))
  {
    hide Apply, Enabled, Inv;
    var k: nat, j: nat :| AskedAt(ws, acts, n, q, file, k, j);
    NeverMissingAfterLoad(ws, acts, c, k, k, j);
    AskedNow(ws[k], acts[k], c);
    QueryStaysOn(ws, acts, c, k + 1, n, q);
    AnswersAreTheLoaders(ws, acts, c, n, q);
  }

  lemma {:induction false} AskedNow(w: World, a: Action, c: Parsed)
    requires Enabled(w, a) && a.Ask?
    ensures a.query in Apply(w, a, c).queries && Apply(w, a, c).queries[a.query].file == a.file
  {
  }

  // ---- which queries can go on ----

  /** Job `j` has inserted notifier `n` for file `f` and has yet to fire it, or has failed. */
  predicate IsOwner(w: World, f: string, n: Notifier, j: nat) {
    j in w.loaders && w.loaders[j].file == f && (f, j) in w.loads &&
    (w.loaders[j].phase == Reading(n) || w.loaders[j].phase == Sent(n) || w.loaders[j].phase == Stored(n) ||
     w.loaders[j].phase.Failed?)
  }

  /** An inserted notifier has fired, or the job that has to fire it is known. */
  ghost predicate Remembered(w: World, n: Notifier)
    requires n in w.inserted
  {
    n in w.fired || exists j :: IsOwner(w, w.inserted[n], n, j)
  }

  ghost predicate AllRemembered(w: World) {
    forall n :: n in w.inserted ==> Remembered(w, n)
  }

  lemma {:induction false} ActionRemembers(w: World, a: Action, c: Parsed)
    requires Inv(w, c) && AllRemembered(w) && Enabled(w, a)
    ensures AllRemembered(Apply(w, a, c))
  {
    hide StatesOk, HistoryOk, QueryOk, LoaderOk;
    var v := Apply(w, a, c);
    if a.Insert? { InsertOwns(w, a.job, c); }
    assert forall x :: x in w.loads ==> x in v.loads;
    forall n | n in v.inserted ensures Remembered(v, n) {
      if a.Insert? && n == w.filter.notifiers {
      } else {
        assert n in w.inserted && Remembered(w, n) && v.inserted[n] == w.inserted[n];
        if n !in v.fired {
          var j :| IsOwner(w, w.inserted[n], n, j);
          assert IsOwner(v, w.inserted[n], n, j);
        }
      }
    }
  }

  lemma {:induction false} InsertOwns(w: World, j: nat, c: Parsed)
    requires Inv(w, c) && Enabled(w, Insert(j))
    ensures var v, n := Apply(w, Insert(j), c), w.filter.notifiers;
            n in v.inserted && v.inserted[n] == w.loaders[j].file && IsOwner(v, v.inserted[n], n, j)
  {
    hide StatesOk, HistoryOk, QueryOk;
    assert LoaderOk(w, j, w.loaders[j]);
  }

  lemma {:induction false} RunRemembers(ws: seq<World>, acts: seq<Action>, c: Parsed, i: nat)
    requires Run(ws, acts, c) && i < |ws|
    ensures AllRemembered(ws[i])
  {
    if i > 0 {
      hide Inv, AllRemembered, Apply, Enabled;
      RunRemembers(ws, acts, c, i - 1);
      RunKeeps(ws, acts, c, i - 1);
      ActionRemembers(ws[i - 1], acts[i - 1], c);
    }
  }

  /**
   When the job that loads a file is through, a query waiting for the file can go on if and only if it waits for the
   notifier that replaced the reserving one. Before that such a query has a job that can go on, unless reading the file
   has failed.
   */
  lemma {:induction false} QueryCanResume(ws: seq<World>, acts: seq<Action>, c: Parsed, i: nat, q: nat)
    requires Run(ws, acts, c) && i < |ws| && q in ws[i].queries && ws[i].queries[q].phase.Waiting?
    ensures (exists j :: j in ws[i].loaders && ws[i].loaders[j].phase.Finished? &&
                         (ws[i].queries[q].file, j) in ws[i].loads) ==>
              (Enabled(ws[i], Resume(q)) <==> ws[i].queries[q].phase.notifier in ws[i].inserted)
    ensures ws[i].queries[q].phase.notifier in ws[i].inserted ==>
              Enabled(ws[i], Resume(q)) ||
              exists j :: j in ws[i].loaders && (ws[i].queries[q].file, j) in ws[i].loads &&
                          (ws[i].loaders[j].phase.Failed? ||
                           exists a: Action :: Enabled(ws[i], a) && (a.Send? || a.Store? || a.Notify?) && a.job == j)
  {
    var w := ws[i];
    RunKeeps(ws, acts, c, i);
    RunRemembers(ws, acts, c, i);
    assert QueryOk(w, c, w.queries[q]);
    var n, f := w.queries[q].phase.notifier, w.queries[q].file;
    if n in w.inserted && n !in w.fired {
      assert w.inserted[n] == f && Remembered(w, n);
      var j :| IsOwner(w, f, n, j);
      if !w.loaders[j].phase.Failed? { OwnerGoesOn(w, j); }
      forall d | d in w.loaders && (f, d) in w.loads ensures d == j { OneOwner(w, f, d, j); }
    }
  }

  lemma {:induction false} OwnerGoesOn(w: World, j: nat)
    requires j in w.loaders
    requires w.loaders[j].phase.Reading? || w.loaders[j].phase.Sent? || w.loaders[j].phase.Stored?
    ensures exists a: Action :: Enabled(w, a) && (a.Send? || a.Store? || a.Notify?) && a.job == j
  {
    assert Enabled(w, Send(j)) || Enabled(w, Store(j)) || Enabled(w, Notify(j));
  }

  lemma {:induction false} OneOwner(w: World, f: string, a: nat, b: nat)
    requires HistoryOk(w) && (f, a) in w.loads && (f, b) in w.loads
    ensures a == b
  {
    var i :| 0 <= i < |w.loads| && w.loads[i] == (f, a);
    var k :| 0 <= k < |w.loads| && w.loads[k] == (f, b);
  }

  /** A query that waits for the reserving notifier waits for ever: nobody fires it. */
  lemma {:induction false} StrandedForever(ws: seq<World>, acts: seq<Action>, c: Parsed, i: nat, k: nat, q: nat)
    requires Run(ws, acts, c) && i <= k < |ws| && q in ws[i].queries && ws[i].queries[q].phase.Waiting?
    requires ws[i].queries[q].phase.notifier !in ws[i].inserted
    ensures q in ws[k].queries && ws[k].queries[q] == ws[i].queries[q]
    ensures ws[k].queries[q].phase.notifier !in ws[k].inserted && !Enabled(ws[k], Resume(q))
    decreases k
  {
    hide Inv, Steps, Apply, Enabled;
    if i < k {
      StrandedForever(ws, acts, c, i, k - 1, q);
      RunKeeps(ws, acts, c, k - 1);
      StrandedStep(ws[k - 1], acts[k - 1], c, q);
    }
    RunKeeps(ws, acts, c, k);
    NotFired(ws[k], c, q);
  }

  lemma {:induction false} StrandedStep(w: World, a: Action, c: Parsed, q: nat)
    requires Inv(w, c) && Enabled(w, a) && q in w.queries && w.queries[q].phase.Waiting?
    requires w.queries[q].phase.notifier !in w.inserted && !Enabled(w, Resume(q))
    ensures var v := Apply(w, a, c);
            q in v.queries && v.queries[q] == w.queries[q] && v.queries[q].phase.notifier !in v.inserted
  {
    hide StatesOk, LoaderOk;
    assert QueryOk(w, c, w.queries[q]);
  }

  lemma {:induction false} NotFired(w: World, c: Parsed, q: nat)
    requires Inv(w, c) && q in w.queries && w.queries[q].phase.Waiting?
    requires w.queries[q].phase.notifier !in w.inserted
    ensures !Enabled(w, Resume(q))
  {
    hide StatesOk, LoaderOk, QueryOk;
  }

  lemma {:induction false} RunPush(ws: seq<World>, acts: seq<Action>, c: Parsed, a: Action)
    returns (longer: seq<World>, more: seq<Action>)
    requires Run(ws, acts, c) && Enabled(ws[|ws| - 1], a)
    ensures Run(longer, more, c) && longer[|longer| - 1] == Apply(ws[|ws| - 1], a, c)
  {
    hide Enabled, Apply;
    longer, more := ws + [Apply(ws[|ws| - 1], a, c)], acts + [a];
    forall i | 0 <= i < |more| ensures Enabled(longer[i], more[i]) && longer[i + 1] == Apply(longer[i], more[i], c) {
      if i < |acts| { assert longer[i] == ws[i] && longer[i + 1] == ws[i + 1] && more[i] == acts[i]; }
    }
  }

  /** Such a query: it asks between the reservation of the file and the insertion of the second notifier. */
  lemma {:induction false} AskedTooEarly() returns (ws: seq<World>, acts: seq<Action>)
    ensures Run(ws, acts, map[])
    ensures var last := ws[|ws| - 1];
            && 0 in last.loaders && last.loaders[0] == Loader("f", Finished)
            && 0 in last.queries && last.queries[0] == Query("f", Waiting(0)) && !Enabled(last, Resume(0))
  {
    hide Run;
    ws, acts := EmptyRun(map[]);
    ws, acts := RunPush(ws, acts, map[], Spawn(0, "f"));
    ws, acts := RunPush(ws, acts, map[], Reserve(0));
    ws, acts := RunPush(ws, acts, map[], Ask(0, "f"));
    ws, acts := RunPush(ws, acts, map[], Insert(0));
    ws, acts := RunPush(ws, acts, map[], Send(0));
    ws, acts := RunPush(ws, acts, map[], Store(0));
    ws, acts := RunPush(ws, acts, map[], Notify(0));
  }

  lemma {:induction false} EmptyRun(c: Parsed) returns (ws: seq<World>, acts: seq<Action>)
    ensures Run(ws, acts, c) && ws[|ws| - 1] == Initial
  {
    ws, acts := [Initial], [];
  }
}
