/**
 The index of delete files: hashed by partition, populated once by a background task, queried by any number of
 scans before and after.
 */
module DeleteFileIndexes {
  import opened Prelude
  import opened Predicates

  datatype ContentType = Data | PositionDeletes | EqualityDeletes

  /** The field values of a partition; a file of an unpartitioned spec has none. */
  type Partition = seq<Option<Datum>>

  datatype DeleteFile = DeleteFile(
    path: string, content: ContentType, partition: Partition, specId: int, sequence: Option<int>)

  datatype DataFile = DataFile(partition: Partition, specId: int)

  type Files = seq<DeleteFile>

  function Filter(files: Files, keep: DeleteFile -> bool): Files {
    if files == [] then []
    else Filter(files[..|files| - 1], keep) + if keep(files[|files| - 1]) then [files[|files| - 1]] else []
  }

  lemma {:induction false} FilterTwice(
      files: Files, keep: DeleteFile -> bool, more: DeleteFile -> bool, both: DeleteFile -> bool)
    requires forall f :: both(f) <==> keep(f) && more(f)
    ensures Filter(Filter(files, keep), more) == Filter(files, both)
    decreases |files|
  {
    if files != [] {
      var front, last := files[..|files| - 1], files[|files| - 1];
      FilterTwice(front, keep, more, both);
      assert both(last) <==> keep(last) && more(last);
      if keep(last) {
      } else {
        assert Filter(files, keep) == Filter(front, keep);
      }
    }
  }

  /** Filtering takes exactly the files to be kept, each where it stands, in the order of the list. */
  lemma {:induction false} FilterPicks(files: Files, keep: DeleteFile -> bool) returns (at: seq<nat>)
    ensures Ascending(at) && forall i: nat :: i in at <==> i < |files| && keep(files[i])
    ensures |at| == |Filter(files, keep)|
    ensures forall k :: 0 <= k < |at| ==> at[k] < |files| && Filter(files, keep)[k] == files[at[k]]
  {
    at := [];
    if files != [] {
      var n := |files| - 1;
      at := FilterPicks(files[..n], keep);
      FilterStep(files, keep);
      hide Filter;
      if keep(files[n]) {
        at := PicksPush(files, keep, at);
      }
    }
  }

  lemma {:induction false} FilterStep(files: Files, keep: DeleteFile -> bool)
    requires files != []
    ensures Filter(files, keep) ==
            Filter(files[..|files| - 1], keep) + if keep(files[|files| - 1]) then [files[|files| - 1]] else []
  {
  }

  lemma {:induction false} PicksPush(files: Files, keep: DeleteFile -> bool, front: seq<nat>) returns (at: seq<nat>)
    requires files != [] && keep(files[|files| - 1])
    requires Ascending(front) && forall i: nat :: i in front <==> i < |files| - 1 && keep(files[i])
    ensures at == front + [|files| - 1]
    ensures Ascending(at) && forall i: nat :: i in at <==> i < |files| && keep(files[i])
  {
    var n := |files| - 1;
    at := front + [n];
    forall i, j | 0 <= i < j < |at| ensures at[i] < at[j] {
      assert at[i] == front[i] && front[i] in front;
    }
    forall i: nat ensures i in at <==> i < |files| && keep(files[i]) {
      assert i in at <==> i in front || i == n;
    }
  }

  lemma {:induction false} FilterCounts(files: Files, keep: DeleteFile -> bool, f: DeleteFile)
    ensures multiset(Filter(files, keep))[f] == if keep(f) then multiset(files)[f] else 0
  {
    if files != [] {
      var front, last := files[..|files| - 1], files[|files| - 1];
      FilterCounts(front, keep, f);
      assert files == front + [last];
    }
  }

  // ---- which delete files apply ----

  /** `seq_num.map(|s| delete.sequence_number() > Some(s)).unwrap_or(true)`, a missing number being the least. */
  predicate Newer(f: DeleteFile, sequence: Option<int>) {
    sequence.Some? ==> f.sequence.Some? && f.sequence.value > sequence.value
  }

  predicate NotOlder(f: DeleteFile, sequence: Option<int>) {
    sequence.Some? ==> f.sequence.Some? && f.sequence.value >= sequence.value
  }

  predicate IsGlobal(f: DeleteFile) { f.partition == [] && f.content != PositionDeletes }

  predicate SamePartition(f: DeleteFile, data: DataFile) {
    f.partition == data.partition && f.specId == data.specId
  }

  function Global(sequence: Option<int>): DeleteFile -> bool {
    (f: DeleteFile) => IsGlobal(f) && Newer(f, sequence)
  }

  function Equality(data: DataFile, sequence: Option<int>): DeleteFile -> bool {
    (f: DeleteFile) => f.content == EqualityDeletes && !IsGlobal(f) && SamePartition(f, data) && Newer(f, sequence)
  }

  function Positional(data: DataFile, sequence: Option<int>): DeleteFile -> bool {
    (f: DeleteFile) => f.content == PositionDeletes && SamePartition(f, data) && NotOlder(f, sequence)
  }

  /** The plain answer: the whole list filtered three times, global first, then equality, then positional deletes. */
  function PlainAnswer(files: Files, data: DataFile, sequence: Option<int>): Files {
    Filter(files, Global(sequence)) + Filter(files, Equality(data, sequence)) +
    Filter(files, Positional(data, sequence))
  }

  /**
   A delete file applies to a data file: global and equality deletes must be strictly newer than the data, positional
   ones not older. A missing number of the delete file is the least; without a number of the data every file passes.
   */
  predicate Applies(f: DeleteFile, data: DataFile, sequence: Option<int>) {
    var here := f.partition == data.partition && f.specId == data.specId;
    match f.content
    case PositionDeletes => here && (sequence.None? || (f.sequence.Some? && f.sequence.value >= sequence.value))
    case EqualityDeletes =>
      (f.partition == [] || here) && (sequence.None? || (f.sequence.Some? && f.sequence.value > sequence.value))
    case Data => f.partition == [] && (sequence.None? || (f.sequence.Some? && f.sequence.value > sequence.value))
  }

  /** The plain answer has the files that apply, each as often as it is in the list. */
  lemma {:induction false} PlainAnswerApplies(files: Files, data: DataFile, sequence: Option<int>)
    ensures forall f :: f in PlainAnswer(files, data, sequence) <==> f in files && Applies(f, data, sequence)
    ensures forall f :: multiset(PlainAnswer(files, data, sequence))[f] ==
                        if Applies(f, data, sequence) then multiset(files)[f] else 0
  {
    hide Filter;
    forall f
      ensures multiset(PlainAnswer(files, data, sequence))[f] ==
              if Applies(f, data, sequence) then multiset(files)[f] else 0
      ensures f in PlainAnswer(files, data, sequence) <==> f in multiset(PlainAnswer(files, data, sequence))
      ensures f in files <==> f in multiset(files)
    {
      FilterCounts(files, Global(sequence), f);
      FilterCounts(files, Equality(data, sequence), f);
      FilterCounts(files, Positional(data, sequence), f);
    }
  }

  lemma {:induction false} PlainAnswerByFields(files: Files, data: DataFile, sequence: Option<int>)
    ensures forall f :: f in PlainAnswer(files, data, sequence) <==>
              && f in files
              && (|| (f.content != PositionDeletes &&
                      (f.partition == [] ||
                       (f.content == EqualityDeletes && f.partition == data.partition && f.specId == data.specId)) &&
                      (sequence.None? || (f.sequence.Some? && f.sequence.value > sequence.value)))
                  || (f.content == PositionDeletes && f.partition == data.partition && f.specId == data.specId &&
                      (sequence.None? || (f.sequence.Some? && f.sequence.value >= sequence.value))))
    ensures forall f :: f in PlainAnswer(files, data, sequence) ==>
                          multiset(PlainAnswer(files, data, sequence))[f] == multiset(files)[f]
  {
    hide PlainAnswer;
    PlainAnswerApplies(files, data, sequence);
  }

  // ---- the hashed index ----

  datatype Index = Index(global: Files, equality: map<Partition, Files>, positional: map<Partition, Files>)

  function Lookup(m: map<Partition, Files>, p: Partition): Files { if p in m then m[p] else [] }

  function Push(m: map<Partition, Files>, f: DeleteFile): map<Partition, Files> {
    m[f.partition := Lookup(m, f.partition) + [f]]
  }

  function Add(index: Index, f: DeleteFile): Index {
    if IsGlobal(f) then index.(global := index.global + [f])
    else if f.content == PositionDeletes then index.(positional := Push(index.positional, f))
    else index.(equality := Push(index.equality, f))
  }

  function IndexOf(files: Files): Index {
    if files == [] then Index([], map[], map[]) else Add(IndexOf(files[..|files| - 1]), files[|files| - 1])
  }

  /** A file of data content that has a partition hits the `unreachable!`; one without is taken as global. */
  predicate Indexable(files: Files) {
    forall i :: 0 <= i < |files| && files[i].content == Data ==> files[i].partition == []
  }

  function EqualityIn(p: Partition): DeleteFile -> bool {
    (f: DeleteFile) => f.content == EqualityDeletes && !IsGlobal(f) && f.partition == p
  }

  function PositionalIn(p: Partition): DeleteFile -> bool {
    (f: DeleteFile) => f.content == PositionDeletes && f.partition == p
  }

  lemma {:induction false} IndexContents(files: Files, p: Partition)
    requires Indexable(files)
    ensures IndexOf(files).global == Filter(files, IsGlobal)
    ensures Lookup(IndexOf(files).equality, p) == Filter(files, EqualityIn(p))
    ensures Lookup(IndexOf(files).positional, p) == Filter(files, PositionalIn(p))
    decreases |files|
  {
    if files != [] {
      IndexContents(files[..|files| - 1], p);
    }
  }

  /** Sequence number and partition spec, the two checks left to a query. */
  function NewerOf(sequence: Option<int>, specId: Option<int>): DeleteFile -> bool {
    (f: DeleteFile) => Newer(f, sequence) && (specId.Some? ==> specId.value == f.specId)
  }

  function NotOlderOf(sequence: Option<int>, specId: int): DeleteFile -> bool {
    (f: DeleteFile) => NotOlder(f, sequence) && specId == f.specId
  }

  function IndexedAnswer(index: Index, data: DataFile, sequence: Option<int>): Files {
    Filter(index.global, NewerOf(sequence, None)) +
    Filter(Lookup(index.equality, data.partition), NewerOf(sequence, Some(data.specId))) +
    Filter(Lookup(index.positional, data.partition), NotOlderOf(sequence, data.specId))
  }

  /** The hashed index gives the plain answer, in the same order. */
  lemma {:induction false} IndexedIsPlain(files: Files, data: DataFile, sequence: Option<int>)
    requires Indexable(files)
    ensures IndexedAnswer(IndexOf(files), data, sequence) == PlainAnswer(files, data, sequence)
  {
    var p := data.partition;
    IndexContents(files, p);
    FilterTwice(files, IsGlobal, NewerOf(sequence, None), Global(sequence));
    FilterTwice(files, EqualityIn(p), NewerOf(sequence, Some(data.specId)), Equality(data, sequence));
    FilterTwice(files, PositionalIn(p), NotOlderOf(sequence, data.specId), Positional(data, sequence));
  }

  // ---- building and querying ----

  /**
   `PopulatedDeleteFileIndex::new`: every file is pushed to the list of its kind and partition; the panic is a failure.
   */
  method NewIndex(files: Files) returns (r: Result<Index>)
    ensures r.Ok? <==> forall i :: 0 <= i < |files| && files[i].content == Data ==> files[i].partition == []
    ensures r.Ok? ==> Indexable(files) && r.value == IndexOf(files)
  {
    var global: Files := [];
    var equality: map<Partition, Files> := map[];
    var positional: map<Partition, Files> := map[];
    for i := 0 to |files|
      invariant Indexable(files[..i])
      invariant Index(global, equality, positional) == IndexOf(files[..i])
    {
      var f := files[i];
      assert files[..i + 1][..i] == files[..i];
      if f.partition == [] && f.content != PositionDeletes {
        global := global + [f];
      } else {
        match f.content
        case PositionDeletes => positional := positional[f.partition := Lookup(positional, f.partition) + [f]];
        case EqualityDeletes => equality := equality[f.partition := Lookup(equality, f.partition) + [f]];
        case Data => return Err;
      }
    }
    assert files[..|files|] == files;
    r := Ok(Index(global, equality, positional));
  }

  method PushMatching(files: Files, keep: DeleteFile -> bool, results: Files) returns (r: Files)
    ensures r == results + Filter(files, keep)
  {
    r := results;
    for i := 0 to |files|
      invariant r == results + Filter(files[..i], keep)
    {
      assert files[..i + 1][..i] == files[..i];
      if keep(files[i]) { r := r + [files[i]]; }
    }
    assert files[..|files|] == files;
  }

  /**
   `get_deletes_for_data_file` on a populated index: exactly the plain answer over the files it was built from. A file
   is returned as often as it was collected, if it applies: a file of an unpartitioned spec, or an equality delete of
   the data's partition and spec, when it is strictly newer; a positional delete of both when it is not older.
   */
  method GetDeletesForDataFile(index: Index, data: DataFile, sequence: Option<int>, ghost files: Files)
    returns (results: Files)
    requires Indexable(files) && index == IndexOf(files)
    ensures results == IndexedAnswer(index, data, sequence) == PlainAnswer(files, data, sequence)
    ensures forall f :: f in results <==>
              && f in files
              && (|| (f.content != PositionDeletes &&
                      (f.partition == [] ||
                       (f.content == EqualityDeletes && f.partition == data.partition && f.specId == data.specId)) &&
                      (sequence.None? || (f.sequence.Some? && f.sequence.value > sequence.value)))
                  || (f.content == PositionDeletes && f.partition == data.partition && f.specId == data.specId &&
                      (sequence.None? || (f.sequence.Some? && f.sequence.value >= sequence.value))))
    ensures forall f :: f in results ==> multiset(results)[f] == multiset(files)[f]
  {
    hide IndexOf, PlainAnswer, Filter, Indexable, NewerOf, NotOlderOf;
    NothingToFilter(NewerOf(sequence, Some(data.specId)));
    NothingToFilter(NotOlderOf(sequence, data.specId));
    results := PushMatching(index.global, NewerOf(sequence, None), []);
    if data.partition in index.equality {
      results := PushMatching(index.equality[data.partition], NewerOf(sequence, Some(data.specId)), results);
    }
    if data.partition in index.positional {
      results := PushMatching(index.positional[data.partition], NotOlderOf(sequence, data.specId), results);
    }
    assert results == IndexedAnswer(index, data, sequence);
    IndexedIsPlain(files, data, sequence);
    PlainAnswerByFields(files, data, sequence);
  }

  lemma {:induction false} NothingToFilter(keep: DeleteFile -> bool)
    ensures Filter([], keep) == []
  {
  }

  // ---- population in the background ----

  datatype State = Populating | Populated(index: Index)

  datatype QueryPhase = Waiting | Answered(answer: Files) | Broken

  /** What a query gets from the lock: on its first read it may be told to wait, on its second it must not. */
  function FirstRead(state: State, data: DataFile, sequence: Option<int>): QueryPhase {
    match state
    case Populating => Waiting
    case Populated(index) => Answered(IndexedAnswer(index, data, sequence))
  }

  function SecondRead(state: State, data: DataFile, sequence: Option<int>): QueryPhase {
    match state
    case Populating => Broken
    case Populated(index) => Answered(IndexedAnswer(index, data, sequence))
  }

  /** The state behind the lock, switched in place by the background task. */
  class DeleteFileIndex {
    var state: State
    ghost var files: Files

    ghost predicate Valid() reads this {
      state.Populated? ==> Indexable(files) && state.index == IndexOf(files)
    }

    constructor ()
      ensures Valid() && state == Populating
    {
      state := Populating;
    }

    /** The background task stores the index of what it collected, or dies and leaves the state as it was. */
    method Populate(collected: Files)
      requires Valid()
      modifies this
      ensures Valid()
      ensures if Indexable(collected) then files == collected && state == Populated(IndexOf(collected))
              else files == old(files) && state == old(state)
    {
      var index := NewIndex(collected);
      if index.Err? { return; }
      state, files := Populated(index.value), collected;
    }

    method ReadFirst(data: DataFile, sequence: Option<int>) returns (phase: QueryPhase)
      requires Valid()
      ensures phase == FirstRead(state, data, sequence)
      ensures phase == if state.Populated? then Answered(PlainAnswer(files, data, sequence)) else Waiting
      ensures state.Populated? ==> forall f :: f in phase.answer <==> f in files && Applies(f, data, sequence)
    {
      match state
      case Populating => phase := Waiting;
      case Populated(index) =>
        var answer := GetDeletesForDataFile(index, data, sequence, files);
        phase := Answered(answer);
    }

    method ReadSecond(data: DataFile, sequence: Option<int>) returns (phase: QueryPhase)
      requires Valid()
      ensures phase == SecondRead(state, data, sequence)
      ensures phase == if state.Populated? then Answered(PlainAnswer(files, data, sequence)) else Broken
      ensures state.Populated? ==> forall f :: f in phase.answer <==> f in files && Applies(f, data, sequence)
    {
      match state
      case Populating => phase := Broken;
      case Populated(index) =>
        var answer := GetDeletesForDataFile(index, data, sequence, files);
        phase := Answered(answer);
    }
  }

  datatype Query = Query(data: DataFile, sequence: Option<int>, phase: QueryPhase)

  /** The state behind the lock, whether the notifier has fired, the files collected so far, and the queries. */
  datatype World = World(state: State, fired: bool, collected: Files, queries: map<nat, Query>)

  const Initial := World(Populating, false, [], map[])

  datatype Action =
    | Collect(file: DeleteFile)                                          // one more file comes through the channel
    | Populate                             // the channel is closed: index built and stored
    | Fire                                                               // notify_waiters
    | Ask(query: nat, data: DataFile, sequence: Option<int>)             // the first read of a query
    | Resume(query: nat)                                                 // the second read, after notified()

  predicate Enabled(w: World, a: Action) {
    match a
    case Collect(_) => w.state.Populating?
    case Populate => w.state.Populating? && Indexable(w.collected)
    case Fire => w.state.Populated?
    case Ask(q, _, _) => q !in w.queries
    case Resume(q) => q in w.queries && w.queries[q].phase.Waiting? && w.fired
  }

  function Apply(w: World, a: Action): World
    requires Enabled(w, a)
  {
    match a
    case Collect(f) => w.(collected := w.collected + [f])
    case Populate => w.(state := Populated(IndexOf(w.collected)))
    case Fire => w.(fired := true)
    case Ask(q, data, sequence) =>
      w.(queries := w.queries[q := Query(data, sequence, FirstRead(w.state, data, sequence))])
    case Resume(q) =>
      var query := w.queries[q];
      w.(queries := w.queries[q := query.(phase := SecondRead(w.state, query.data, query.sequence))])
  }

  ghost predicate QueryOk(w: World, q: Query) {
    match q.phase
    case Waiting => true
    case Answered(answer) => w.state.Populated? && answer == PlainAnswer(w.collected, q.data, q.sequence)
    case Broken => false
  }

  ghost predicate Inv(w: World) {
    && (w.state.Populated? ==> Indexable(w.collected) && w.state.index == IndexOf(w.collected))
    && (w.fired ==> w.state.Populated?)
    && (forall q :: q in w.queries ==> QueryOk(w, w.queries[q]))
  }

  lemma {:induction false} ActionKeeps(w: World, a: Action)
    requires Inv(w) && Enabled(w, a)
    ensures Inv(Apply(w, a))
    ensures w.state.Populated? ==> Apply(w, a).collected == w.collected && Apply(w, a).state == w.state
  {
    var v := Apply(w, a);
    hide IndexOf, PlainAnswer, IndexedAnswer;
    match a
    case Ask(_, data, sequence) => if w.state.Populated? { IndexedIsPlain(w.collected, data, sequence); }
    case Resume(q) => IndexedIsPlain(w.collected, w.queries[q].data, w.queries[q].sequence);
    case _ =>
  }

  ghost predicate Run(ws: seq<World>, acts: seq<Action>) {
    && |ws| == |acts| + 1 && ws[0] == Initial
    && forall i :: 0 <= i < |acts| ==> Enabled(ws[i], acts[i]) && ws[i + 1] == Apply(ws[i], acts[i])
  }

  lemma {:induction false} RunKeeps(ws: seq<World>, acts: seq<Action>, i: nat, k: nat)
    requires Run(ws, acts) && i <= k < |ws|
    ensures Inv(ws[k])
    ensures ws[i].state.Populated? ==> ws[k].collected == ws[i].collected && ws[k].state == ws[i].state
    decreases k
  {
    hide Inv, Apply, Enabled;
    if k == 0 {
      InitialOk();
    } else {
      RunKeeps(ws, acts, if i < k then i else k - 1, k - 1);
      ActionKeeps(ws[k - 1], acts[k - 1]);
    }
  }

  lemma {:induction false} InitialOk()
    ensures Inv(Initial)
  {
  }

  lemma {:induction false} FiredStays(ws: seq<World>, acts: seq<Action>, i: nat, k: nat)
    requires Run(ws, acts) && i <= k < |ws| && ws[i].fired
    ensures ws[k].fired
    decreases k
  {
    hide IndexOf, IndexedAnswer;
    if i < k { FiredStays(ws, acts, i, k - 1); }
  }

  /** Once the notifier has fired, every query that waits can go on; it is fired only after the index is stored. */
  lemma {:induction false} QueryCanResume(ws: seq<World>, acts: seq<Action>, i: nat, k: nat, q: nat)
    requires Run(ws, acts) && i < k < |ws| && acts[i].Fire?
    requires q in ws[k].queries && ws[k].queries[q].phase.Waiting?
    ensures Enabled(ws[k], Resume(q)) && ws[k].state.Populated?
  {
    hide IndexOf, IndexedAnswer;
    FiredStays(ws, acts, i + 1, k);
    RunKeeps(ws, acts, 0, k);
  }

  /**
   Over every run, a query that was answered, before or after the index was populated, was given the plain answer
   over the complete list of delete files: nothing is collected after it, and no query breaks.
   */
  lemma {:induction false} AnswersAreComplete(ws: seq<World>, acts: seq<Action>, i: nat, k: nat, q: nat)
    requires Run(ws, acts) && i <= k < |ws| && q in ws[i].queries && !ws[i].queries[q].phase.Waiting?
    ensures var query := ws[i].queries[q];
            && query.phase == Answered(PlainAnswer(ws[k].collected, query.data, query.sequence))
            && forall f :: f in query.phase.answer <==>
                           f in ws[k].collected && Applies(f, query.data, query.sequence)
  {
    hide PlainAnswer, Applies, IndexOf;
    RunKeeps(ws, acts, 0, i);
    RunKeeps(ws, acts, i, k);
    PlainAnswerApplies(ws[k].collected, ws[i].queries[q].data, ws[i].queries[q].sequence);
  }
}
