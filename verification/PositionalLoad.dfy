/**
 Loading positional delete files, as a protocol of any number of concurrent jobs over the shared delete filter.
 A job handles one delete file of one `load_deletes` call; every action below is one lock region, or one step
 outside the lock. A waiter can wake once its notifier has fired.
 */
module PositionalLoad {
  import opened Prelude
  import opened DeleteVectors
  import opened DeleteFilters

  /** What parsing each delete file yields: for each data file, the positions it deletes. */
  type Contents = map<string, Vectors>

  function ContentOf(c: Contents, file: string): Vectors { if file in c then c[file] else map[] }

  datatype Phase =
    | Idle
    | Parsing
    | Waiting(notifier: Notifier)
    | Merging(left: Vectors)
    | Notifying(notify: Option<Notifier>)
    | Done
    | Failed

  datatype Job = Job(file: string, phase: Phase)

  /**
   The shared filter, the notifiers already fired, the jobs, and two histories: which job was told to load which
   file, and for which file each notifier was created.
   */
  datatype World = World(
    filter: FilterState,
    fired: set<Notifier>,
    jobs: map<nat, Job>,
    loads: seq<(string, nat)>,
    issued: map<Notifier, string>)

  const Initial := World(Empty, {}, map[], [], map[])

  datatype Action =
    | Spawn(job: nat, file: string)                     // a call to load_deletes adds a job
    | Start(job: nat)                                   // try_start_pos_del_load
    | Parse(job: nat)                                   // the file has been read
    | Fail(job: nat)                                    // or could not be read
    | Merge(job: nat, dataFile: string)                 // upsert_delete_vector for one data file
    | Finish(job: nat)                                  // finish_pos_del_load, inside the lock
    | Notify(job: nat)                                  // notify_waiters, after the lock is released
    | Wake(job: nat)                                    // a waiter returns from notified()
    | Other(filter: FilterState)                        // equality deletes move on in the same filter

  predicate Enabled(w: World, a: Action) {
    match a
    case Spawn(j, _) => j !in w.jobs
    case Start(j) => j in w.jobs && w.jobs[j].phase.Idle?
    case Parse(j) => j in w.jobs && w.jobs[j].phase.Parsing?
    case Fail(j) => j in w.jobs && w.jobs[j].phase.Parsing?
    case Merge(j, d) => j in w.jobs && w.jobs[j].phase.Merging? && d in w.jobs[j].phase.left
    case Finish(j) => j in w.jobs && w.jobs[j].phase == Merging(map[])
    case Notify(j) => j in w.jobs && w.jobs[j].phase.Notifying?
    case Wake(j) => j in w.jobs && w.jobs[j].phase.Waiting? && w.jobs[j].phase.notifier in w.fired
    case Other(f) =>
      f.vectors == w.filter.vectors && f.positional == w.filter.positional && f.notifiers >= w.filter.notifiers
  }

  function To(w: World, j: nat, p: Phase): map<nat, Job>
    requires j in w.jobs
  {
    w.jobs[j := w.jobs[j].(phase := p)]
  }

  function Apply(w: World, a: Action, c: Contents): World
    requires Enabled(w, a)
  {
    match a
    case Spawn(j, file) => w.(jobs := w.jobs[j := Job(file, Idle)])
    case Start(j) =>
      var file := w.jobs[j].file;
      var (filter, action) := TryStartPos(w.filter, file);
      (match action
       case Load => w.(filter := filter, jobs := To(w, j, Parsing), loads := w.loads + [(file, j)],
                       issued := w.issued[w.filter.notifiers := file])
       case AlreadyLoaded => w.(filter := filter, jobs := To(w, j, Done))
       case WaitFor(n) => w.(filter := filter, jobs := To(w, j, Waiting(n))))
    case Parse(j) => w.(jobs := To(w, j, Merging(ContentOf(c, w.jobs[j].file))))
    case Fail(j) => w.(jobs := To(w, j, Failed))
    case Merge(j, d) =>
      var left := w.jobs[j].phase.left;
      w.(filter := Upsert(w.filter, d, left[d]), jobs := To(w, j, Merging(left - {d})))
    case Finish(j) =>
      var (filter, notify) := FinishPos(w.filter, w.jobs[j].file);
      w.(filter := filter, jobs := To(w, j, Notifying(notify)))
    case Notify(j) =>
      var notify := w.jobs[j].phase.notify;
      w.(fired := w.fired + (if notify.Some? then {notify.value} else {}), jobs := To(w, j, Done))
    case Wake(j) => w.(jobs := To(w, j, Done))
    case Other(f) => w.(filter := f)
  }

  // ---- the invariant ----

  ghost predicate Included(a: Vectors, b: Vectors) {
    forall d :: d in a ==> d in b && a[d] <= b[d]
  }

  predicate IsLoaded(w: World, file: string) { file in w.filter.positional && w.filter.positional[file].Loaded? }

  predicate IsLoading(w: World, file: string) { file in w.filter.positional && w.filter.positional[file].Loading? }

  /** A loaded file is entirely in the delete vectors. */
  ghost predicate LoadedIsPresent(w: World, c: Contents) {
    forall f :: IsLoaded(w, f) ==> Included(ContentOf(c, f), w.filter.vectors)
  }

  /** The delete vectors hold only positions of files that some job has started to load. */
  ghost predicate VectorsJustified(w: World, c: Contents) {
    forall d, p :: d in w.filter.vectors && p in w.filter.vectors[d] ==> Justified(w, c, d, p)
  }

  ghost predicate Justified(w: World, c: Contents, d: string, p: u64) {
    exists f :: f in w.filter.positional && d in ContentOf(c, f) && p in ContentOf(c, f)[d]
  }

  /** No file was given out to be loaded twice, and the files given out are those the filter knows. */
  ghost predicate LoadsUnique(w: World) {
    && (forall i, k :: 0 <= i < k < |w.loads| ==> w.loads[i].0 != w.loads[k].0)
    && (forall i :: 0 <= i < |w.loads| ==> w.loads[i].0 in w.filter.positional)
  }

  /** A fired notifier belongs to a loaded file; the notifier of a loading file is its own. */
  ghost predicate NotifiersKnown(w: World) {
    && (forall n :: n in w.issued ==> n < w.filter.notifiers)
    && (forall n :: n in w.fired ==> n in w.issued && IsLoaded(w, w.issued[n]))
    && (forall f :: IsLoading(w, f) ==>
          w.filter.positional[f].notify in w.issued && w.issued[w.filter.positional[f].notify] == f)
  }

  ghost predicate JobOk(w: World, c: Contents, j: nat, job: Job) {
    match job.phase
    case Idle => true
    case Parsing => IsLoading(w, job.file) && (job.file, j) in w.loads
    case Merging(left) =>
      && IsLoading(w, job.file) && (job.file, j) in w.loads
      && (forall d :: d in left ==> d in ContentOf(c, job.file) && left[d] == ContentOf(c, job.file)[d])
      && Included(ContentOf(c, job.file) - left.Keys, w.filter.vectors)
    case Waiting(n) => n in w.issued && w.issued[n] == job.file
    case Notifying(notify) =>
      IsLoaded(w, job.file) && (notify.Some? ==> notify.value in w.issued && w.issued[notify.value] == job.file)
    case Done => IsLoaded(w, job.file)
    case Failed => true
  }

  ghost predicate JobsOk(w: World, c: Contents) {
    forall j :: j in w.jobs ==> JobOk(w, c, j, w.jobs[j])
  }

  ghost predicate Inv(w: World, c: Contents) {
    LoadedIsPresent(w, c) && VectorsJustified(w, c) && LoadsUnique(w) && NotifiersKnown(w) && JobsOk(w, c)
  }

  // ---- what an action may change ----

  /** Everything only grows: files stay known, loaded files stay loaded, positions and histories are kept. */
  ghost predicate Grows(w: World, v: World) {
    && (forall f :: f in w.filter.positional ==> f in v.filter.positional)
    && (forall f :: IsLoaded(w, f) ==> IsLoaded(v, f))
    && Included(w.filter.vectors, v.filter.vectors)
    && w.fired <= v.fired
    && (forall n :: n in w.issued ==> n in v.issued && v.issued[n] == w.issued[n])
    && w.loads <= v.loads
  }

  /** A job that does not act keeps its part of the invariant, provided a file it is loading stays in that state. */
  lemma {:induction false} JobFrame(w: World, v: World, c: Contents, j: nat, job: Job)
    requires Grows(w, v) && JobOk(w, c, j, job)
    requires job.phase.Parsing? || job.phase.Merging? ==> IsLoading(v, job.file)
    ensures JobOk(v, c, j, job)
  {
    assert forall x :: x in w.loads ==> x in v.loads;
  }

  lemma {:induction false} GrowsSelf(w: World, v: World)
    requires v.filter.positional == w.filter.positional && v.filter.vectors == w.filter.vectors
    requires w.fired <= v.fired && v.issued == w.issued && v.loads == w.loads
    ensures Grows(w, v)
  {
  }

  lemma {:induction false} JustifiedStays(w: World, v: World, c: Contents)
    requires VectorsJustified(w, c) && v.filter.vectors == w.filter.vectors
    requires forall f :: f in w.filter.positional ==> f in v.filter.positional
    ensures VectorsJustified(v, c)
  {
    forall d, p | d in v.filter.vectors && p in v.filter.vectors[d] ensures Justified(v, c, d, p) {
      assert Justified(w, c, d, p);
    }
  }

  /** Actions that touch only a job's phase, or the parts of the filter this protocol does not use. */
  lemma {:induction false} PhaseOnly(w: World, v: World, c: Contents, acting: nat)
    requires Inv(w, c)
    requires v.filter.positional == w.filter.positional && v.filter.vectors == w.filter.vectors
    requires v.filter.notifiers >= w.filter.notifiers
    requires w.fired <= v.fired && v.issued == w.issued && v.loads == w.loads
    requires forall n :: n in v.fired ==> n in w.fired || (n in w.issued && IsLoaded(w, w.issued[n]))
    requires forall j :: j in v.jobs ==>
                           if j == acting then JobOk(w, c, j, v.jobs[j]) else j in w.jobs && v.jobs[j] == w.jobs[j]
    ensures Inv(v, c) && Grows(w, v)
  {
    GrowsSelf(w, v);
    forall f ensures IsLoaded(w, f) == IsLoaded(v, f) && IsLoading(w, f) == IsLoading(v, f) {}
    assert LoadedIsPresent(v, c);
    JustifiedStays(w, v, c);
    forall j | j in v.jobs ensures JobOk(v, c, j, v.jobs[j]) {
      JobFrame(w, v, c, j, v.jobs[j]);
    }
  }

  lemma {:induction false} StartKeeps(w: World, j: nat, c: Contents)
    requires Inv(w, c) && Enabled(w, Start(j))
    ensures var v := Apply(w, Start(j), c); Inv(v, c) && Grows(w, v)
  {
    var v, file := Apply(w, Start(j), c), w.jobs[j].file;
    if file in w.filter.positional {
      assert IsLoaded(w, file) || IsLoading(w, file);
      PhaseOnly(w, v, c, j);
    } else {
      StartMoves(w, j, c);
      JustifiedStays(w, v, c);
      hide LoadedIsPresent, VectorsJustified, LoadsUnique, NotifiersKnown, Grows;
      assert v.loads[|w.loads|] == (file, j);
      forall k | k in v.jobs ensures JobOk(v, c, k, v.jobs[k]) {
        if k != j { JobFrame(w, v, c, k, w.jobs[k]); }
      }
    }
  }

  /** The first job of a file moves it to loading and leaves the others alone. */
  lemma {:induction false} StartMoves(w: World, j: nat, c: Contents)
    requires Inv(w, c) && Enabled(w, Start(j)) && w.jobs[j].file !in w.filter.positional
    ensures var v := Apply(w, Start(j), c);
            && (forall f :: IsLoaded(v, f) == IsLoaded(w, f) &&
                            (IsLoading(v, f) <==> IsLoading(w, f) || f == w.jobs[j].file))
            && Grows(w, v) && LoadedIsPresent(v, c) && LoadsUnique(v) && NotifiersKnown(v)
  {
    hide VectorsJustified, JobOk, ContentOf;
    var v, file := Apply(w, Start(j), c), w.jobs[j].file;
    assert v == w.(filter := v.filter, jobs := v.jobs, loads := w.loads + [(file, j)],
                   issued := w.issued[w.filter.notifiers := file]);
    forall f ensures IsLoaded(v, f) == IsLoaded(w, f) && (IsLoading(v, f) <==> IsLoading(w, f) || f == file) {}
  }

  /** Two jobs never load the same file. */
  lemma {:induction false} OwnersDiffer(w: World, j: nat, k: nat, c: Contents)
    requires LoadsUnique(w) && j in w.jobs && k in w.jobs && j != k
    requires (w.jobs[j].file, j) in w.loads && (w.jobs[k].file, k) in w.loads
    ensures w.jobs[j].file != w.jobs[k].file
  {
    var a :| 0 <= a < |w.loads| && w.loads[a] == (w.jobs[j].file, j);
    var b :| 0 <= b < |w.loads| && w.loads[b] == (w.jobs[k].file, k);
  }

  lemma {:induction false} MergeKeeps(w: World, j: nat, d: string, c: Contents)
    requires Inv(w, c) && Enabled(w, Merge(j, d))
    ensures var v := Apply(w, Merge(j, d), c); Inv(v, c) && Grows(w, v)
  {
    var v, job := Apply(w, Merge(j, d), c), w.jobs[j];
    assert JobOk(w, c, j, job);
    forall f ensures IsLoaded(v, f) == IsLoaded(w, f) && IsLoading(v, f) == IsLoading(w, f) {}
    assert Grows(w, v);
    assert LoadedIsPresent(v, c) by {
      forall f | IsLoaded(v, f) ensures Included(ContentOf(c, f), v.filter.vectors) {
        assert Included(ContentOf(c, f), w.filter.vectors);
      }
    }
    forall e, p | e in v.filter.vectors && p in v.filter.vectors[e] ensures Justified(v, c, e, p) {
      if e in w.filter.vectors && p in w.filter.vectors[e] {
        assert Justified(w, c, e, p);
      } else {
        assert e == d && job.file in v.filter.positional && p in ContentOf(c, job.file)[d];
      }
    }
    forall k | k in v.jobs ensures JobOk(v, c, k, v.jobs[k]) {
      JobFrame(w, v, c, k, w.jobs[k]);
      if k == j {
        var left := job.phase.left;
        forall e | e in ContentOf(c, job.file) - (left - {d}).Keys
          ensures e in v.filter.vectors && ContentOf(c, job.file)[e] <= v.filter.vectors[e]
        {
          if e != d { assert e in ContentOf(c, job.file) - left.Keys; }
        }
      }
    }
  }

  lemma {:induction false} FinishKeeps(w: World, j: nat, c: Contents)
    requires Inv(w, c) && Enabled(w, Finish(j))
    ensures var v := Apply(w, Finish(j), c); Inv(v, c) && Grows(w, v)
  {
    var v, job := Apply(w, Finish(j), c), w.jobs[j];
    var file := job.file;
    assert JobOk(w, c, j, job);
    forall f ensures (IsLoaded(v, f) <==> IsLoaded(w, f) || f == file) &&
           (IsLoading(v, f) <==> IsLoading(w, f) && f != file) {}
    assert Grows(w, v);
    assert LoadedIsPresent(v, c) by {
      var nothing: Vectors := map[];
      assert ContentOf(c, file) - nothing.Keys == ContentOf(c, file);
    }
    JustifiedStays(w, v, c);
    forall k | k in v.jobs ensures JobOk(v, c, k, v.jobs[k]) {
      if k != j {
        var other := w.jobs[k];
        assert JobOk(w, c, k, other);
        if other.phase.Parsing? || other.phase.Merging? { OwnersDiffer(w, j, k, c); }
        JobFrame(w, v, c, k, other);
      }
    }
  }

  /** Every action keeps the invariant, and everything only grows. */
  lemma {:induction false} ActionKeeps(w: World, a: Action, c: Contents)
    requires Inv(w, c) && Enabled(w, a)
    ensures Inv(Apply(w, a, c), c) && Grows(w, Apply(w, a, c))
  {
    match a
    case Start(j) => StartKeeps(w, j, c);
    case Merge(j, d) => MergeKeeps(w, j, d, c);
    case Finish(j) => FinishKeeps(w, j, c);
    case _ => PhaseKeeps(w, a, c);
  }

  lemma {:induction false} PhaseKeeps(w: World, a: Action, c: Contents)
    requires Inv(w, c) && Enabled(w, a) && !a.Start? && !a.Merge? && !a.Finish?
    ensures Inv(Apply(w, a, c), c) && Grows(w, Apply(w, a, c))
  {
    hide LoadedIsPresent, VectorsJustified, LoadsUnique, Grows;
    var j := if a.Other? then 0 else a.job;
    if j in w.jobs { assert JobOk(w, c, j, w.jobs[j]); }
    PhaseOnly(w, Apply(w, a, c), c, j);
  }

  // ---- over whole runs ----

  /** Any interleaving of the jobs' actions, from the empty filter. */
  ghost predicate Run(ws: seq<World>, acts: seq<Action>, c: Contents) {
    && |ws| == |acts| + 1 && ws[0] == Initial
    && forall i :: 0 <= i < |acts| ==> Enabled(ws[i], acts[i]) && ws[i + 1] == Apply(ws[i], acts[i], c)
  }

  lemma {:induction false} RunKeeps(ws: seq<World>, acts: seq<Action>, c: Contents, i: nat)
    requires Run(ws, acts, c) && i < |ws|
    ensures Inv(ws[i], c)
  {
    if i > 0 {
      hide Inv, Grows, Apply, Enabled;
      RunKeeps(ws, acts, c, i - 1);
      ActionKeeps(ws[i - 1], acts[i - 1], c);
    }
  }

  lemma {:induction false} GrowsTransitive(u: World, v: World, w: World)
    requires Grows(u, v) && Grows(v, w)
    ensures Grows(u, w)
  {
    forall d | d in u.filter.vectors ensures d in w.filter.vectors && u.filter.vectors[d] <= w.filter.vectors[d] {
      assert d in v.filter.vectors;
    }
  }

  lemma {:induction false} RunGrows(ws: seq<World>, acts: seq<Action>, c: Contents, i: nat, k: nat)
    requires Run(ws, acts, c) && i <= k < |ws|
    ensures Grows(ws[i], ws[k])
    decreases k
  {
    hide Inv, Grows, Apply, Enabled;
    if i == k {
      GrowsSelf(ws[i], ws[i]);
    } else {
      RunGrows(ws, acts, c, i, k - 1);
      RunKeeps(ws, acts, c, k - 1);
      ActionKeeps(ws[k - 1], acts[k - 1], c);
      GrowsTransitive(ws[i], ws[k - 1], ws[k]);
    }
  }

  /** The action was the start of a job, and the filter told it to load its file. */
  predicate ToldToLoad(w: World, a: Action) {
    a.Start? && Enabled(w, a) && TryStartPos(w.filter, w.jobs[a.job].file).1 == Load
  }

  /** At most one job is ever told to load a given file. */
  lemma {:induction false} AtMostOneLoad(ws: seq<World>, acts: seq<Action>, c: Contents, i: nat, k: nat)
    requires Run(ws, acts, c) && i < k < |acts|
    requires ToldToLoad(ws[i], acts[i]) && ToldToLoad(ws[k], acts[k])
    ensures ws[i].jobs[acts[i].job].file != ws[k].jobs[acts[k].job].file
  {
    var file := ws[i].jobs[acts[i].job].file;
    assert file in ws[i + 1].filter.positional;
    RunGrows(ws, acts, c, i + 1, k);
  }

  /** Loaded is absorbing, and from then on all positions of the file stay in the delete vectors. */
  lemma {:induction false} LoadedIsForever(ws: seq<World>, acts: seq<Action>, c: Contents, i: nat, k: nat, file: string)
    requires Run(ws, acts, c) && i <= k < |ws| && IsLoaded(ws[i], file)
    ensures IsLoaded(ws[k], file) && Included(ContentOf(c, file), ws[k].filter.vectors)
  {
    RunGrows(ws, acts, c, i, k);
    RunKeeps(ws, acts, c, k);
  }

  /** A waiter that returns from its notifier finds the whole file in the delete vectors. */
  lemma {:induction false} WokenFindsEverything(ws: seq<World>, acts: seq<Action>, c: Contents, i: nat)
    requires Run(ws, acts, c) && i < |acts| && acts[i].Wake?
    ensures Included(ContentOf(c, ws[i].jobs[acts[i].job].file), ws[i].filter.vectors)
  {
    RunKeeps(ws, acts, c, i);
    assert JobOk(ws[i], c, acts[i].job, ws[i].jobs[acts[i].job]);
  }

  /** The deletes of one data file over a set of delete files. */
  ghost function Requested(c: Contents, files: set<string>, dataFile: string): set<u64> {
    set f, p | f in files && dataFile in ContentOf(c, f) && p in ContentOf(c, f)[dataFile] :: p
  }

  ghost function VectorOf(w: World, dataFile: string): set<u64> {
    if dataFile in w.filter.vectors then w.filter.vectors[dataFile] else {}
  }

  /**
   When the jobs of a `load_deletes` call have all succeeded, the delete vector of every data file holds every
   position that the requested delete files delete from it, then and at any later time; and it never holds a
   position that no started delete file deletes.
   */
  lemma {:induction false} SuccessfulLoadIsComplete(
      ws: seq<World>, acts: seq<Action>, c: Contents, call: set<nat>, i: nat, k: nat, dataFile: string)
    requires Run(ws, acts, c) && i <= k < |ws|
    requires forall j :: j in call ==> j in ws[i].jobs && ws[i].jobs[j].phase.Done?
    ensures Requested(c, set j | j in call :: ws[i].jobs[j].file, dataFile) <=
            VectorOf(ws[k], dataFile) <= Requested(c, ws[k].filter.positional.Keys, dataFile)
  {
    RunKeeps(ws, acts, c, i);
    RunKeeps(ws, acts, c, k);
    forall f, p | f in (set j | j in call :: ws[i].jobs[j].file) && dataFile in ContentOf(c, f) &&
           p in ContentOf(c, f)[dataFile]
      ensures p in VectorOf(ws[k], dataFile)
    {
      var j :| j in call && ws[i].jobs[j].file == f;
      assert JobOk(ws[i], c, j, ws[i].jobs[j]);
      LoadedIsForever(ws, acts, c, i, k, f);
    }
    forall p | p in VectorOf(ws[k], dataFile) ensures p in Requested(c, ws[k].filter.positional.Keys, dataFile) {
      assert Justified(ws[k], c, dataFile, p);
    }
  }

  // ---- no waiter is forgotten ----

  /** Job `k` was told to load file `f` and has not come to the end of it. */
  predicate IsLoader(w: World, f: string, k: nat) {
    k in w.jobs && w.jobs[k].file == f && (f, k) in w.loads &&
    (w.jobs[k].phase.Parsing? || w.jobs[k].phase.Merging? || w.jobs[k].phase.Failed?)
  }

  /** Job `k` has loaded file `f` and has yet to fire notifier `n`. */
  predicate IsNotifier(w: World, f: string, n: Notifier, k: nat) {
    k in w.jobs && w.jobs[k].file == f && (f, k) in w.loads && w.jobs[k].phase == Notifying(Some(n))
  }

  /** A notifier has fired, or the job that has to fire it is known. */
  ghost predicate Remembered(w: World, n: Notifier)
    requires n in w.issued
  {
    var f := w.issued[n];
    || n in w.fired
    || (IsLoading(w, f) && w.filter.positional[f].notify == n && exists k :: IsLoader(w, f, k))
    || exists k :: IsNotifier(w, f, n, k)
  }

  ghost predicate AllRemembered(w: World) {
    forall n :: n in w.issued ==> w.issued[n] in w.filter.positional && Remembered(w, n)
  }

  /** Steps that neither start nor finish a load leave every notifier with the job that has to fire it. */
  lemma {:induction false} RememberedStays(w: World, v: World, j: nat)
    requires AllRemembered(w) && v.issued == w.issued && v.loads == w.loads && w.fired <= v.fired
    requires v.filter.positional == w.filter.positional
    requires forall k :: k in w.jobs && k != j ==> k in v.jobs && v.jobs[k] == w.jobs[k]
    requires j in w.jobs ==> j in v.jobs && v.jobs[j].file == w.jobs[j].file
    requires j in w.jobs && (w.jobs[j].phase.Parsing? || w.jobs[j].phase.Merging? || w.jobs[j].phase.Failed?) ==>
               v.jobs[j].phase.Parsing? || v.jobs[j].phase.Merging? || v.jobs[j].phase.Failed?
    requires j in w.jobs && w.jobs[j].phase.Notifying? && w.jobs[j].phase.notify.Some? ==>
               w.jobs[j].phase.notify.value in v.fired || v.jobs[j].phase == w.jobs[j].phase
    ensures AllRemembered(v)
  {
    forall n | n in v.issued ensures v.issued[n] in v.filter.positional && Remembered(v, n) {
      var f := w.issued[n];
      assert Remembered(w, n);
      if n !in v.fired {
        if k :| IsNotifier(w, f, n, k) {
          assert IsNotifier(v, f, n, k);
        } else {
          var k :| IsLoader(w, f, k);
          assert IsLoader(v, f, k);
        }
      }
    }
  }

  lemma {:induction false} StartRemembers(w: World, j: nat, c: Contents)
    requires Inv(w, c) && AllRemembered(w) && Enabled(w, Start(j)) && w.jobs[j].file !in w.filter.positional
    ensures AllRemembered(Apply(w, Start(j), c))
  {
    hide LoadedIsPresent, VectorsJustified, LoadsUnique, JobsOk, ContentOf;
    var v, file := Apply(w, Start(j), c), w.jobs[j].file;
    assert v == w.(filter := v.filter, jobs := To(w, j, Parsing), loads := w.loads + [(file, j)],
                   issued := w.issued[w.filter.notifiers := file]);
    assert forall x :: x in w.loads ==> x in v.loads;
    forall n | n in v.issued ensures v.issued[n] in v.filter.positional && Remembered(v, n) {
      if n == w.filter.notifiers {
        assert v.loads[|w.loads|] == (file, j);
        assert IsLoader(v, file, j);
      } else {
        var f := w.issued[n];
        assert Remembered(w, n) && f != file;
        if n !in w.fired {
          if k :| IsNotifier(w, f, n, k) {
            assert IsNotifier(v, f, n, k);
          } else {
            var k :| IsLoader(w, f, k);
            assert IsLoader(v, f, k);
          }
        }
      }
    }
  }

  lemma {:induction false} FinishingIsLoading(w: World, j: nat, c: Contents)
    requires Inv(w, c) && Enabled(w, Finish(j))
    ensures IsLoading(w, w.jobs[j].file) && (w.jobs[j].file, j) in w.loads
  {
    hide LoadedIsPresent, VectorsJustified, LoadsUnique, ContentOf;
    assert JobOk(w, c, j, w.jobs[j]);
  }

  lemma {:induction false} FinishRemembers(w: World, j: nat, c: Contents)
    requires Inv(w, c) && AllRemembered(w) && Enabled(w, Finish(j))
    ensures AllRemembered(Apply(w, Finish(j), c))
  {
    hide Inv, LoadsUnique, ContentOf;
    var v, file := Apply(w, Finish(j), c), w.jobs[j].file;
    FinishingIsLoading(w, j, c);
    forall n | n in v.issued ensures v.issued[n] in v.filter.positional && Remembered(v, n) {
      var f := w.issued[n];
      assert Remembered(w, n);
      if n !in w.fired {
        if k :| IsNotifier(w, f, n, k) {
          assert IsNotifier(v, f, n, k);
        } else if f == file {
          assert IsNotifier(v, f, n, j);
        } else {
          var k :| IsLoader(w, f, k);
          assert IsLoader(v, f, k);
        }
      }
    }
  }

  lemma {:induction false} ActionRemembers(w: World, a: Action, c: Contents)
    requires Inv(w, c) && AllRemembered(w) && Enabled(w, a)
    ensures AllRemembered(Apply(w, a, c))
  {
    hide LoadedIsPresent, VectorsJustified, LoadsUnique, AllRemembered, ContentOf;
    if a.Finish? {
      FinishRemembers(w, a.job, c);
    } else if a.Start? && w.jobs[a.job].file !in w.filter.positional {
      StartRemembers(w, a.job, c);
    } else {
      RememberedStays(w, Apply(w, a, c), if a.Other? then 0 else a.job);
    }
  }

  lemma {:induction false} RunRemembers(ws: seq<World>, acts: seq<Action>, c: Contents, i: nat)
    requires Run(ws, acts, c) && i < |ws|
    ensures AllRemembered(ws[i])
  {
    if i > 0 {
      hide Inv, AllRemembered, Apply, Enabled;
      RunRemembers(ws, acts, c, i - 1);
      RunKeeps(ws, acts, c, i - 1);
      ActionRemembers(ws[i - 1], acts[i - 1], c);
    }
  }

  /**
   Over every run, a job that waits for a file can wake as soon as the job that was told to load the file is done. Until
   then there is such a job, and it can go on, unless reading the file has failed.
   */
  lemma {:induction false} WaiterCanWake(ws: seq<World>, acts: seq<Action>, c: Contents, i: nat, j: nat)
    requires Run(ws, acts, c) && i < |ws| && j in ws[i].jobs && ws[i].jobs[j].phase.Waiting?
    ensures (exists k :: k in ws[i].jobs && ws[i].jobs[k].phase.Done? && (ws[i].jobs[j].file, k) in ws[i].loads) ==>
              Enabled(ws[i], Wake(j))
    ensures Enabled(ws[i], Wake(j)) ||
            exists k :: k in ws[i].jobs && ws[i].jobs[k].file == ws[i].jobs[j].file &&
                        (ws[i].jobs[j].file, k) in ws[i].loads &&
                        (ws[i].jobs[k].phase.Failed? ||
                         exists a: Action :: Enabled(ws[i], a) && (a.Parse? || a.Merge? || a.Finish? || a.Notify?) &&
                                             a.job == k)
  {
    var w := ws[i];
    RunKeeps(ws, acts, c, i);
    RunRemembers(ws, acts, c, i);
    assert JobOk(w, c, j, w.jobs[j]);
    var n, f := w.jobs[j].phase.notifier, w.jobs[j].file;
    assert w.issued[n] == f && Remembered(w, n);
    if n !in w.fired {
      var k: nat;
      if m :| IsNotifier(w, f, n, m) { k := m; } else { k :| IsLoader(w, f, k); }
      if !w.jobs[k].phase.Failed? { LoaderGoesOn(w, k); }
      forall d | d in w.jobs && (f, d) in w.loads ensures d == k { OneLoader(w, f, d, k); }
    }
  }

  lemma {:induction false} LoaderGoesOn(w: World, k: nat)
    requires k in w.jobs && (w.jobs[k].phase.Parsing? || w.jobs[k].phase.Merging? || w.jobs[k].phase.Notifying?)
    ensures exists a: Action :: Enabled(w, a) && (a.Parse? || a.Merge? || a.Finish? || a.Notify?) && a.job == k
  {
    match w.jobs[k].phase
    case Parsing => assert Enabled(w, Parse(k));
    case Notifying(_) => assert Enabled(w, Notify(k));
    case Merging(left) =>
      if d :| d in left {
        assert Enabled(w, Merge(k, d));
      } else {
        assert left == map[];
        assert Enabled(w, Finish(k));
      }
  }

  lemma {:induction false} OneLoader(w: World, f: string, a: nat, b: nat)
    requires LoadsUnique(w) && (f, a) in w.loads && (f, b) in w.loads
    ensures a == b
  {
    var i :| 0 <= i < |w.loads| && w.loads[i] == (f, a);
    var k :| 0 <= k < |w.loads| && w.loads[k] == (f, b);
  }

  // ---- parsing one positional delete file ----

  /** A row of the file: data file path and position, either of which may be null. */
  datatype PosRow = PosRow(path: Option<string>, pos: Option<int>)

  predicate IsInt64(n: int) { -0x8000_0000_0000_0000 <= n < 0x8000_0000_0000_0000 }

  /** `pos as u64`: a negative position wraps around. */
  function AsU64(pos: int): u64
    requires IsInt64(pos)
  {
    pos % TWO_64
  }

  predicate ValidRows(rows: seq<PosRow>) {
    forall i :: 0 <= i < |rows| && rows[i].pos.Some? ==> IsInt64(rows[i].pos.value)
  }

  /** Row `i` deletes position `p` of data file `d`: it names it, as it is or wrapped around. */
  predicate Deletes(rows: seq<PosRow>, i: nat, d: string, p: u64)
    requires i < |rows|
  {
    rows[i].path == Some(d) && rows[i].pos.Some? && (rows[i].pos.value == p || rows[i].pos.value == p - TWO_64)
  }

  /** Each data file has exactly the positions its rows name, and data files no row names have no vector. */
  ghost predicate ParsedFrom(v: Vectors, rows: seq<PosRow>) {
    && ValidRows(rows)
    && (forall d :: d in v <==> exists i :: 0 <= i < |rows| && rows[i].path == Some(d))
    && (forall d, p :: d in v ==> (p in v[d] <==> exists i :: 0 <= i < |rows| && Deletes(rows, i, d, p)))
  }

  /** Some row of one of the delete files deletes position `p` of data file `d`. */
  ghost predicate RowDeletes(rows: map<string, seq<PosRow>>, files: set<string>, d: string, p: u64) {
    exists f, i :: f in files && f in rows && 0 <= i < |rows[f]| && Deletes(rows[f], i, d, p)
  }

  /** The contents of each delete file are what parsing its rows yields. */
  ghost predicate ContentsParsed(c: Contents, rows: map<string, seq<PosRow>>) {
    c.Keys == rows.Keys && forall f :: f in rows ==> ParsedFrom(c[f], rows[f])
  }

  lemma {:induction false} ParsedDeletes(v: Vectors, rows: seq<PosRow>, d: string, p: u64)
    requires ParsedFrom(v, rows)
    ensures d in v && p in v[d] <==> exists i :: 0 <= i < |rows| && Deletes(rows, i, d, p)
  {
    if i :| 0 <= i < |rows| && Deletes(rows, i, d, p) {
      assert rows[i].path == Some(d);
    }
  }

  /** Then the deletes of a set of files are those of their rows. */
  lemma {:induction false} RequestedRows(
      c: Contents, rows: map<string, seq<PosRow>>, files: set<string>, d: string, p: u64)
    requires ContentsParsed(c, rows)
    ensures p in Requested(c, files, d) <==> RowDeletes(rows, files, d, p)
  {
    hide ParsedFrom, Deletes;
    forall f | f in rows
      ensures d in c[f] && p in c[f][d] <==> exists i :: 0 <= i < |rows[f]| && Deletes(rows[f], i, d, p)
    {
      ParsedDeletes(c[f], rows[f], d, p);
    }
    if p in Requested(c, files, d) {
      var f :| f in files && d in ContentOf(c, f) && p in ContentOf(c, f)[d];
      assert f in rows;
    }
    if RowDeletes(rows, files, d, p) {
      var f, i :| f in files && f in rows && 0 <= i < |rows[f]| && Deletes(rows[f], i, d, p);
      assert d in ContentOf(c, f) && p in ContentOf(c, f)[d];
    }
  }

  /** What row `i` deletes is its path and its position as the code casts it. */
  lemma {:induction false} DeletesItsOwn(rows: seq<PosRow>, i: nat, d: string, p: u64)
    requires i < |rows| && ValidRows(rows) && rows[i].path.Some? && rows[i].pos.Some?
    ensures Deletes(rows, i, d, p) <==> d == rows[i].path.value && p == AsU64(rows[i].pos.value)
  {
  }

  lemma {:induction false} ParsedByArithmetic(v: Vectors, rows: seq<PosRow>)
    requires ParsedFrom(v, rows)
    ensures forall d, p: u64 :: d in v ==>
              (p in v[d] <==> exists i :: 0 <= i < |rows| && rows[i].path == Some(d) && rows[i].pos.Some? &&
                                          (rows[i].pos.value == p || rows[i].pos.value == p - TWO_64))
  {
    forall d, p: u64 | d in v
      ensures p in v[d] <==> exists i :: 0 <= i < |rows| && rows[i].path == Some(d) && rows[i].pos.Some? &&
                                         (rows[i].pos.value == p || rows[i].pos.value == p - TWO_64)
    {
      if i :| 0 <= i < |rows| && rows[i].path == Some(d) && rows[i].pos.Some? &&
              (rows[i].pos.value == p || rows[i].pos.value == p - TWO_64) {
        assert Deletes(rows, i, d, p);
      }
    }
  }

  /**
   `parse_positional_deletes_record_batch_stream`: fails on a null, otherwise position `p` of data file `d` is deleted
   exactly when some row names `d` and either `p` itself or, as a negative number, `p - 2^64`; data files no row names
   get no vector.
   */
  method ParsePositionalDeletes(rows: seq<PosRow>) returns (r: Result<Vectors>)
    requires ValidRows(rows)
    ensures r.Ok? <==> forall i :: 0 <= i < |rows| ==> rows[i].path.Some? && rows[i].pos.Some?
    ensures r.Ok? ==> forall d :: d in r.value <==> exists i :: 0 <= i < |rows| && rows[i].path == Some(d)
    ensures r.Ok? ==> forall d, p: u64 :: d in r.value ==>
                        (p in r.value[d] <==>
                         exists i :: 0 <= i < |rows| && rows[i].path == Some(d) && rows[i].pos.Some? &&
                                     (rows[i].pos.value == p || rows[i].pos.value == p - TWO_64))
    ensures r.Ok? ==> ParsedFrom(r.value, rows)
  {
    hide Deletes, AsU64;
    var result: Vectors := map[];
    for k := 0 to |rows|
      invariant forall i :: 0 <= i < k ==> rows[i].path.Some? && rows[i].pos.Some?
      invariant forall d :: d in result <==> exists i :: 0 <= i < k && rows[i].path == Some(d)
      invariant forall d, p :: d in result ==> (p in result[d] <==> exists i :: 0 <= i < k && Deletes(rows, i, d, p))
    {
      if rows[k].path.None? || rows[k].pos.None? { return Err; }
      var path, pos := rows[k].path.value, AsU64(rows[k].pos.value);
      ghost var before := result;
      result := result[path := (if path in result then result[path] else {}) + {pos}];
      forall d, p | d in result ensures p in result[d] <==> exists i :: 0 <= i < k + 1 && Deletes(rows, i, d, p) {
        DeletesItsOwn(rows, k, d, p);
        if d !in before { NotNamed(rows, k, d, p); }
      }
    }
    r := Ok(result);
    ParsedByArithmetic(result, rows);
  }

  /** Rows that do not name a data file delete nothing from it. */
  lemma {:induction false} NotNamed(rows: seq<PosRow>, k: nat, d: string, p: u64)
    requires k <= |rows| && forall i :: 0 <= i < k ==> rows[i].path != Some(d)
    ensures forall i :: 0 <= i < k ==> !Deletes(rows, i, d, p)
  {
  }
}
