/**
 Reading one data file after its delete files have been loaded: the loaded delete vector, the loaded equality
 predicates and the filter of the scan together decide which rows come back.
 */
module MergeOnRead {
  import opened Prelude
  import opened DeleteVectors
  import opened RowSelections
  import opened Predicates
  import opened EqualityDeletes
  import opened DeleteFilters
  import opened ScanPruning
  import opened RowGroupMetrics
  import opened PageIndexEvaluators
  import PL = PositionalLoad
  import EL = EqualityLoad

  datatype DeleteFile = DeleteFile(path: string, isEquality: bool)

  /** A scan task over one data file, the rows of the file, and the evaluators' answers for any predicate. */
  datatype Task = Task(
    dataFile: string,
    deletes: seq<DeleteFile>,
    filter: Option<Predicate>,
    groupRows: seq<nat>,
    groupSizes: seq<nat>,
    start: u64,
    length: u64,
    rows: seq<Row>,
    rowGroupFiltering: bool,
    rowSelection: bool,
    groupMayMatch: Predicate -> seq<Result<bool>>,
    pageIndex: Predicate -> Option<seq<Result<seq<RowSelector>>>>)

  ghost predicate ValidTask(task: Task) {
    && |task.groupSizes| == |task.groupRows|
    && |task.rows| == TotalRows(task.groupRows) < TWO_64
    && (forall p :: |task.groupMayMatch(p)| == |task.groupRows|)
    && (forall p :: task.pageIndex(p).Some? ==> |task.pageIndex(p).value| == |task.groupRows|)
  }

  // ---- the final predicate ----

  /** The filter of the scan and the predicate of the equality deletes, joined when both are there. */
  function FinalPredicate(filter: Option<Predicate>, deletePredicate: Option<Predicate>): Option<Predicate> {
    match (filter, deletePredicate)
    case (None, _) => deletePredicate
    case (Some(_), None) => filter
    case (Some(f), Some(d)) => Some(And(f, d))
  }

  predicate IsTrue(p: Option<Predicate>, row: Row) { p.Some? ==> Eval(p.value, row) == True }

  lemma {:induction false} FinalPredicateMeaning(
      filter: Option<Predicate>, deletePredicate: Option<Predicate>, row: Row)
    ensures IsTrue(FinalPredicate(filter, deletePredicate), row) <==>
            IsTrue(filter, row) && IsTrue(deletePredicate, row)
  {
  }

  /** The final predicate on each row of the file. */
  function Truth(rows: seq<Row>, final: Option<Predicate>): (t: seq<Kleene>)
    ensures |t| == |rows|
    ensures forall p :: 0 <= p < |t| ==> t[p] == if final.Some? then Eval(final.value, rows[p]) else True
  {
    seq(|rows|, p requires 0 <= p < |rows| => if final.Some? then Eval(final.value, rows[p]) else True)
  }

  /** The scan of the file with a final predicate; without one the evaluators are not asked. */
  function ScanOf(task: Task, final: Option<Predicate>): Scan {
    Scan(task.groupRows, task.groupSizes, task.start, task.length, final.Some?, Truth(task.rows, final),
         task.rowGroupFiltering, task.rowSelection,
         if final.Some? then task.groupMayMatch(final.value) else seq(|task.groupRows|, _ => Ok(true)),
         if final.Some? then task.pageIndex(final.value) else None)
  }

  /** The predicate the file is scanned with, once the equality delete files have been answered for. */
  function FinalOf(task: Task, answers: seq<Option<Predicate>>): Option<Predicate>
    requires |answers| == |task.deletes|
  {
    FinalPredicate(task.filter, EqualityDeletePredicate(TaskDeletes(task.deletes, answers)))
  }

  function TaskScan(task: Task, answers: seq<Option<Predicate>>): Scan
    requires |answers| == |task.deletes|
  {
    ScanOf(task, FinalOf(task, answers))
  }

  function TaskDeletes(deletes: seq<DeleteFile>, answers: seq<Option<Predicate>>): (r: seq<TaskDelete>)
    requires |answers| == |deletes|
    ensures |r| == |deletes| && forall i :: 0 <= i < |r| ==> r[i] == TaskDelete(deletes[i].isEquality, answers[i])
  {
    seq(|deletes|, i requires 0 <= i < |deletes| => TaskDelete(deletes[i].isEquality, answers[i]))
  }

  predicate AllAnswered(deletes: seq<DeleteFile>, answers: seq<Option<Predicate>>)
    requires |answers| == |deletes|
  {
    forall i :: 0 <= i < |deletes| && deletes[i].isEquality ==> answers[i].Some?
  }

  ghost function VectorIn(filter: DeleteFilter, dataFile: string): Option<DeleteVector>
    reads filter`deleteVectors
  {
    if dataFile in filter.deleteVectors then Some(filter.deleteVectors[dataFile]) else None
  }

  /** Files of fewer than 2^32 rows are served, whatever is filtered and deleted. */
  lemma {:induction false} SmallTaskServed(task: Task, answers: seq<Option<Predicate>>, filter: DeleteFilter)
    requires ValidTask(task) && |answers| == |task.deletes| && filter.Valid() && TotalRows(task.groupRows) < TWO_32
    ensures Returns(TaskScan(task, answers), VectorIn(filter, task.dataFile))
    ensures ServesDeletes(TaskScan(task, answers), VectorIn(filter, task.dataFile))
  {
    SmallFileServed(TaskScan(task, answers), VectorIn(filter, task.dataFile));
  }

  // ---- the evaluators ----

  /** The evaluators of the scan task are those of the reader, on this metadata of the file. */
  ghost predicate EvaluatorsOf(task: Task, m: Metadata)
    requires ValidTask(task) && Describes(m, task.groupRows, task.rows)
  {
    forall p: Predicate, g: nat :: g < |task.groupRows| ==> EvaluatorsAt(task, m, p, g)
  }

  ghost predicate EvaluatorsAt(task: Task, m: Metadata, p: Predicate, g: nat)
    requires ValidTask(task) && Describes(m, task.groupRows, task.rows) && g < |task.groupRows|
  {
    assert DescribesGroup(m, task.groupRows[g], g);
    && task.groupMayMatch(p)[g] == EvalRowGroup(m.groups[g], p)
    && (task.pageIndex(p).Some? ==> AnswersPages(task.pageIndex(p).value[g], m.paged[g], m.schema, p))
  }

  /** A predicate bound to the schema whose columns the file has. */
  predicate Askable(p: Predicate, m: Metadata) { Bound(p, m.schema) && Terms(p) <= m.columns }

  /** A predicate of which no evaluation fails when the metadata can be read. */
  predicate Plain(p: Predicate, m: Metadata) { Askable(p, m) && TextPrefixes(p) }

  lemma {:induction false} AndOfAskable(p: Predicate, q: Predicate, m: Metadata)
    requires Askable(p, m) && Askable(q, m)
    ensures Askable(AndOf(p, q), m)
    ensures Plain(p, m) && Plain(q, m) ==> Plain(AndOf(p, q), m)
  {
  }

  lemma {:induction false} CombinedAskable(deletes: seq<TaskDelete>, m: Metadata)
    requires forall i :: 0 <= i < |deletes| && deletes[i].isEquality && deletes[i].loaded.Some? ==>
             Askable(deletes[i].loaded.value, m)
    ensures Askable(Combined(deletes), m)
    ensures (forall i :: 0 <= i < |deletes| && deletes[i].isEquality && deletes[i].loaded.Some? ==>
               Plain(deletes[i].loaded.value, m)) ==> Plain(Combined(deletes), m)
    decreases |deletes|
  {
    hide Askable, Plain;
    if deletes == [] {
      AlwaysTrueAskable(m);
    } else {
      var n := |deletes| - 1;
      CombinedAskable(deletes[..n], m);
      if deletes[n].isEquality && deletes[n].loaded.Some? {
        AndOfAskable(Combined(deletes[..n]), deletes[n].loaded.value, m);
      }
    }
  }

  lemma {:induction false} AlwaysTrueAskable(m: Metadata)
    ensures Plain(AlwaysTrue, m) && Askable(AlwaysTrue, m)
  {
  }

  /** On metadata that is true of the file nothing is pruned that the final predicate would let through. */
  lemma {:induction false} TaskIsConservative(task: Task, m: Metadata, answers: seq<Option<Predicate>>)
    requires ValidTask(task) && |answers| == |task.deletes|
    requires Describes(m, task.groupRows, task.rows) && TrueMetadata(m, task.groupRows, task.rows) &&
             EvaluatorsOf(task, m)
    requires task.filter.Some? ==> Askable(task.filter.value, m)
    requires forall i :: 0 <= i < |answers| && task.deletes[i].isEquality && answers[i].Some? ==>
             Askable(answers[i].value, m)
    ensures Conservative(TaskScan(task, answers))
  {
    hide Describes, TrueMetadata, Conservative, Eval, Filter, EvalRowGroup, AnswersPages, Combined, Bound;
    var final := FinalOf(task, answers);
    var scan := ScanOf(task, final);
    if final.None? {
      NoPredicateIsConservative(task);
    } else {
      CombinedAskable(TaskDeletes(task.deletes, answers), m);
      BothAskable(task.filter, EqualityDeletePredicate(TaskDeletes(task.deletes, answers)), m);
      forall x | 0 <= x < |task.rows| ensures scan.truth[x] == Filter(final.value, m.columns, task.rows[x]) {
        FilterIsEval(final.value, m.columns, task.rows[x]);
      }
      EvaluatedWhenOf(task, m, final.value);
      TrueMetadataIsConservative(scan, m, final.value, task.rows);
    }
  }

  lemma {:induction false} BothAskable(filter: Option<Predicate>, deletePredicate: Option<Predicate>, m: Metadata)
    requires filter.Some? ==> Askable(filter.value, m)
    requires deletePredicate.Some? ==> Askable(deletePredicate.value, m)
    ensures var final := FinalPredicate(filter, deletePredicate);
            && (final.Some? ==> Askable(final.value, m))
            && ((filter.Some? ==> Plain(filter.value, m)) && (deletePredicate.Some? ==> Plain(deletePredicate.value, m))
                ==> (final.Some? ==> Plain(final.value, m)))
  {
  }

  lemma {:induction false} EvaluatedWhenOf(task: Task, m: Metadata, p: Predicate)
    requires ValidTask(task) && Describes(m, task.groupRows, task.rows) && EvaluatorsOf(task, m)
    requires forall x :: 0 <= x < |task.rows| ==> Truth(task.rows, Some(p))[x] == Filter(p, m.columns, task.rows[x])
    ensures EvaluatedOn(ScanOf(task, Some(p)), m, p, task.rows)
  {
    hide Filter, EvalRowGroup, AnswersPages, RowsTyped, ValidPaged, StatsTyped, PagesTyped;
    forall g: nat | g < |task.groupRows|
      ensures task.groupMayMatch(p)[g] == EvalRowGroup(m.groups[g], p)
      ensures task.pageIndex(p).Some? ==>
                DescribesGroup(m, task.groupRows[g], g) && PagesEvaluated(ScanOf(task, Some(p)), m, p, g)
    {
      assert DescribesGroup(m, task.groupRows[g], g) && EvaluatorsAt(task, m, p, g);
    }
  }

  lemma {:induction false} NoPredicateIsConservative(task: Task)
    requires ValidTask(task)
    ensures Conservative(ScanOf(task, None))
  {
  }

  /** No bound of the file failed to be read, and the column indexes can be used. */
  ghost predicate MetadataReadable(m: Metadata) {
    && (forall g: nat :: g < |m.groups| ==> Readable(m.groups[g]))
    && (forall g: nat, term :: g < |m.paged| && term in m.paged[g].columns ==> IndexReadable(m.paged[g].columns[term]))
  }

  lemma {:induction false} GroupEvaluates(task: Task, m: Metadata, p: Predicate, g: nat)
    requires ValidTask(task) && Describes(m, task.groupRows, task.rows) && EvaluatorsOf(task, m)
    requires MetadataReadable(m) && Plain(p, m) && g < |task.groupRows|
    ensures task.groupMayMatch(p)[g].Ok? && (task.pageIndex(p).Some? ==> task.pageIndex(p).value[g].Ok?)
  {
    hide Bound, VisitRowGroup, VisitPages, TextPrefixes, RowsTyped, ValidPaged, StatsTyped, PagesTyped, Terms;
    hide Readable, IndexReadable;
    assert DescribesGroup(m, task.groupRows[g], g) && EvaluatorsAt(task, m, p, g);
    VisitSucceeds(m.groups[g], m.schema, p);
    TextIsAnswerable(m.groups[g], p);
    VisitPagesSucceeds(m.paged[g], m.schema, p);
    ReadableIsAnswerable(m.paged[g], p);
  }

  /** On metadata that can be read no evaluation for the final predicate fails, provided its prefixes are texts. */
  lemma {:induction false} TaskEvaluates(task: Task, m: Metadata, answers: seq<Option<Predicate>>)
    requires ValidTask(task) && |answers| == |task.deletes|
    requires Describes(m, task.groupRows, task.rows) && EvaluatorsOf(task, m) && MetadataReadable(m)
    requires task.filter.Some? ==> Plain(task.filter.value, m)
    requires forall i :: 0 <= i < |answers| && task.deletes[i].isEquality && answers[i].Some? ==>
             Plain(answers[i].value, m)
    requires task.rowSelection ==> forall p :: task.pageIndex(p).Some?
    ensures Evaluates(TaskScan(task, answers))
  {
    hide Describes, EvaluatorsOf, Combined, Bound, MetadataReadable, TextPrefixes, Terms, ChosenGroups;
    var final := FinalOf(task, answers);
    if final.Some? {
      CombinedAskable(TaskDeletes(task.deletes, answers), m);
      BothAskable(task.filter, EqualityDeletePredicate(TaskDeletes(task.deletes, answers)), m);
      forall g: nat | g < |task.groupRows|
        ensures task.groupMayMatch(final.value)[g].Ok?
        ensures task.pageIndex(final.value).Some? ==> task.pageIndex(final.value).value[g].Ok?
      {
        GroupEvaluates(task, m, final.value, g);
      }
    }
  }

  // ---- which rows come back ----

  /**
   Row group `g`, whose first byte follows those of the groups before it and the 4-byte header, shares a byte with the
   range of the scan task, or the whole file is read.
   */
  predicate InRange(task: Task, g: nat) {
    var end := if task.start + task.length < TWO_64 then task.start + task.length
               else task.start + task.length - TWO_64;
    || (task.start == 0 && task.length == 0)
    || (g < |task.groupSizes| && 4 + Base(task.groupSizes, g) < end && task.start < 4 + Base(task.groupSizes, g + 1))
  }

  ghost predicate InTask(task: Task, p: nat) {
    p < |task.rows| && exists g: nat :: HoldsRow(task.groupRows, g, p) && InRange(task, g)
  }

  /** A row passes the predicates loaded for the equality delete files. */
  predicate PassesEquality(deletes: seq<DeleteFile>, answers: seq<Option<Predicate>>, row: Row)
    requires |answers| == |deletes|
  {
    forall i :: 0 <= i < |deletes| && deletes[i].isEquality ==> IsTrue(answers[i], row)
  }

  ghost predicate Returned(task: Task, answers: seq<Option<Predicate>>, deleted: set<u64>, p: nat)
    requires |answers| == |task.deletes|
  {
    InTask(task, p) && p !in deleted && IsTrue(task.filter, task.rows[p]) &&
    PassesEquality(task.deletes, answers, task.rows[p])
  }

  ghost function DeletedFrom(s: FilterState, dataFile: string): set<u64> {
    if dataFile in s.vectors then s.vectors[dataFile] else {}
  }

  /** A row the scan wants is a row to be returned. */
  lemma {:induction false} WantedIsReturned(task: Task, answers: seq<Option<Predicate>>, deleted: set<u64>, p: nat)
    requires ValidTask(task) && |answers| == |task.deletes| && AllAnswered(task.deletes, answers)
    ensures Wanted(TaskScan(task, answers), deleted, p) <==> Returned(task, answers, deleted, p)
  {
    hide Eval, AllOf, EqualityPredicates, EqualityDeletePredicate, Base, FinalPredicate;
    var deletePredicate := EqualityDeletePredicate(TaskDeletes(task.deletes, answers));
    var final := FinalPredicate(task.filter, deletePredicate);
    if p < |task.rows| {
      var row := task.rows[p];
      FinalPredicateMeaning(task.filter, deletePredicate, row);
      EqualityDeletePredicateMeaning(TaskDeletes(task.deletes, answers), row);
      EqualityPredicatesMeaning(TaskDeletes(task.deletes, answers), row);
      assert Passes(ScanOf(task, final), p) <==> IsTrue(final, row);
      PassesWhenAllPass(task.deletes, answers, row);
    }
    forall g: nat ensures InByteRange(ScanOf(task, final), g) <==> InRange(task, g) {}
  }

  lemma {:induction false} PassesWhenAllPass(deletes: seq<DeleteFile>, answers: seq<Option<Predicate>>, row: Row)
    requires |answers| == |deletes| && AllAnswered(deletes, answers)
    ensures var ds := TaskDeletes(deletes, answers);
            (forall i :: 0 <= i < |ds| && ds[i].isEquality && ds[i].loaded.Some? ==>
               Eval(ds[i].loaded.value, row) == True)
            <==> PassesEquality(deletes, answers, row)
  {
    hide Eval;
    var ds := TaskDeletes(deletes, answers);
    assert forall i :: 0 <= i < |ds| ==> ds[i] == TaskDelete(deletes[i].isEquality, answers[i]);
    if forall i :: 0 <= i < |ds| && ds[i].isEquality && ds[i].loaded.Some? ==> Eval(ds[i].loaded.value, row) == True {
      forall i | 0 <= i < |deletes| && deletes[i].isEquality ensures IsTrue(answers[i], row) {
        assert ds[i].isEquality && ds[i].loaded.Some?;
      }
    }
  }

  // ---- reading the file ----

  /**
   The end of `process_file_scan_task`: the delete predicate is built from the answers, joined with the filter, and
   the file is scanned with the delete vector of its path.
   */
  method ReadTask(task: Task, filter: DeleteFilter, answers: seq<Option<Predicate>>) returns (r: Result<seq<nat>>)
    requires ValidTask(task) && filter.Valid() && |answers| == |task.deletes|
    requires AllAnswered(task.deletes, answers) ==>
               Conservative(TaskScan(task, answers)) &&
               Returns(TaskScan(task, answers), VectorIn(filter, task.dataFile))
    ensures r.Ok? <==> AllAnswered(task.deletes, answers) && Evaluates(TaskScan(task, answers))
    ensures r.Ok? ==> Enumerates(r.value, iset p: nat | Returned(task, answers, FoundIn(task, answers, filter), p))
    ensures r.Ok? && ServesDeletes(TaskScan(task, answers), VectorIn(filter, task.dataFile)) ==>
              Enumerates(r.value, iset p: nat | Returned(task, answers, DeletedFrom(filter.State(), task.dataFile), p))
  {
    hide Enumerates, Conservative, ChosenGroups, NeverStale, Served, Wanted, Returned, Found, Members, Evaluates, Base;
    hide EqualityDeletePredicate, FinalPredicate;
    var built := BuildEqualityDeletePredicate(TaskDeletes(task.deletes, answers));
    if built.Err? { return Err; }
    assert AllAnswered(task.deletes, answers) by {
      forall i | 0 <= i < |task.deletes| && task.deletes[i].isEquality ensures answers[i].Some? {
        assert TaskDeletes(task.deletes, answers)[i].isEquality;
      }
    }
    var scan := ScanOf(task, FinalPredicate(task.filter, built.value));
    assert scan == TaskScan(task, answers);
    var vector := filter.GetDeleteVectorForPath(task.dataFile);
    r := ScanFile(scan, vector);
    assert DeletedIn(vector) == DeletedFrom(filter.State(), task.dataFile);
    WantedRowsReturned(task, answers, FoundIn(task, answers, filter));
    WantedRowsReturned(task, answers, DeletedIn(vector));
  }

  /** The deletes that the walk over the scan's row groups finds. */
  ghost function FoundIn(task: Task, answers: seq<Option<Predicate>>, filter: DeleteFilter): set<u64>
    requires ValidTask(task) && |answers| == |task.deletes| && filter.Valid()
    reads filter`deleteVectors, filter.deleteVectors.Values
  {
    var scan := TaskScan(task, answers);
    Found(scan, ChosenGroups(scan), VectorIn(filter, task.dataFile))
  }

  lemma {:induction false} WantedRowsReturned(task: Task, answers: seq<Option<Predicate>>, deleted: set<u64>)
    requires ValidTask(task) && |answers| == |task.deletes| && AllAnswered(task.deletes, answers)
    ensures (iset p: nat | Wanted(TaskScan(task, answers), deleted, p)) ==
            iset p: nat | Returned(task, answers, deleted, p)
  {
    hide Wanted, Returned, TaskScan;
    forall p: nat ensures Wanted(TaskScan(task, answers), deleted, p) <==> Returned(task, answers, deleted, p) {
      WantedIsReturned(task, answers, deleted, p);
    }
  }

  // ---- after a successful load ----

  /** A run of the positional loads: the jobs of `call` have succeeded at moment `done`; the file is read at `now`. */
  datatype PositionalRun = PositionalRun(
    worlds: seq<PL.World>, actions: seq<PL.Action>, contents: PL.Contents, rows: map<string, seq<PL.PosRow>>,
    call: set<nat>, done: nat, now: nat)
  {
    ghost predicate Valid() {
      && PL.Run(worlds, actions, contents) && PL.ContentsParsed(contents, rows) && done <= now < |worlds|
      && forall j :: j in call ==> j in worlds[done].jobs && worlds[done].jobs[j].phase.Done?
    }

    /** The delete files the call asked for, and all those that some job has started to load. */
    ghost function Requested(): set<string> requires Valid() { set j | j in call :: worlds[done].jobs[j].file }

    ghost function Started(): set<string> requires Valid() { worlds[now].filter.positional.Keys }

    /** The delete vector of a data file, when the file is read. */
    ghost function Vector(dataFile: string): set<u64> requires Valid() { PL.VectorOf(worlds[now], dataFile) }
  }

  /** A run of the equality loads up to moment `now`, one query for each delete file, and the batches of each. */
  datatype EqualityRun = EqualityRun(
    worlds: seq<EL.World>, actions: seq<EL.Action>, parsed: EL.Parsed, now: nat, queries: seq<nat>,
    batches: seq<seq<Batch>>)
  {
    /** Each equality delete file was asked for after its load had begun, and has been answered. */
    ghost predicate Answers(deletes: seq<DeleteFile>, answers: seq<Option<Predicate>>) {
      && EL.Run(worlds, actions, parsed) && now < |worlds| && |queries| == |answers| == |batches| == |deletes|
      && forall i :: 0 <= i < |deletes| && deletes[i].isEquality ==> Answered(i, deletes[i].path, answers[i])
    }

    /** The answer is there, and the loader of the file sent what parsing its batches yields. */
    ghost predicate Answered(i: nat, path: string, answer: Option<Predicate>)
      requires |worlds| == |actions| + 1 && now < |worlds| && i < |queries| == |batches|
    {
      && EL.AskedAfterLoad(worlds, actions, now, queries[i], path)
      && queries[i] in worlds[now].queries && worlds[now].queries[queries[i]].phase == EL.Answered(answer)
      && ValidBatches(batches[i]) && path in parsed && parsed[path] == FilePredicate(batches[i])
    }
  }

  /** A row that no delete vector and no equality delete file takes away, and that the filter lets through. */
  ghost predicate Live(task: Task, batches: seq<seq<Batch>>, deleted: set<u64>, p: nat)
    requires |batches| == |task.deletes|
  {
    InTask(task, p) && p !in deleted && IsTrue(task.filter, task.rows[p]) &&
    forall i :: 0 <= i < |task.deletes| && task.deletes[i].isEquality ==> KeptByFile(batches[i], task.rows[p])
  }

  /**
   The file keeps the row: each of its delete rows, read off the columns of its batch, has a column that is there in
   the row and differs, or a batch without columns ended the parse.
   */
  ghost predicate KeptByFile(bs: seq<Batch>, row: Row) {
    && ValidBatches(bs)
    && ((exists i :: 0 <= i < |bs| && bs[i].numColumns == 0) ||
        forall i, k :: 0 <= i < |bs| && HasRow(bs[i], k) ==>
                         exists j :: 0 <= j < |bs[i].columns| && row(bs[i].columns[j].field).Some? &&
                                     row(bs[i].columns[j].field) != bs[i].columns[j].cells[k])
  }

  lemma {:induction false} AnswerIsParsed(el: EqualityRun, i: nat, path: string, answer: Option<Predicate>)
    requires EL.Run(el.worlds, el.actions, el.parsed) && el.now < |el.worlds| && i < |el.queries| == |el.batches|
    requires el.Answered(i, path, answer)
    ensures answer == Some(FilePredicate(el.batches[i]))
    ensures forall row: Row :: IsTrue(answer, row) <==> KeptByFile(el.batches[i], row)
  {
    hide EL.Run, EL.AskedAfterLoad, FilePredicate, Eval;
    EL.AnsweredAfterLoad(el.worlds, el.actions, el.parsed, el.now, el.queries[i], path);
    forall row: Row ensures IsTrue(answer, row) <==> KeptByFile(el.batches[i], row) {
      FilePredicateMeaning(el.batches[i], row);
    }
  }

  lemma {:induction false} AnswersAreParsed(el: EqualityRun, deletes: seq<DeleteFile>, answers: seq<Option<Predicate>>)
    requires el.Answers(deletes, answers)
    ensures |el.batches| == |answers| == |deletes| && AllAnswered(deletes, answers)
    ensures forall i :: 0 <= i < |deletes| && deletes[i].isEquality ==>
                          ValidBatches(el.batches[i]) && answers[i] == Some(FilePredicate(el.batches[i]))
    ensures forall row: Row, i :: 0 <= i < |deletes| && deletes[i].isEquality ==>
                                    (IsTrue(answers[i], row) <==> KeptByFile(el.batches[i], row))
  {
    hide EL.AskedAfterLoad, FilePredicate, IsTrue, KeptByFile;
    forall i | 0 <= i < |deletes| && deletes[i].isEquality
      ensures answers[i] == Some(FilePredicate(el.batches[i]))
      ensures forall row: Row :: IsTrue(answers[i], row) <==> KeptByFile(el.batches[i], row)
    {
      AnswerIsParsed(el, i, deletes[i].path, answers[i]);
    }
  }

  // ---- the loaded predicates can be asked of the metadata ----

  predicate CellAskable(c: Cell, m: Metadata) {
    c.field in m.columns && (c.value.Some? ==> OfType(m.schema, c.field, c.value.value))
  }

  /** The cells of the delete rows have the types of their columns, and the file has these columns. */
  ghost predicate BatchesAskable(bs: seq<Batch>, m: Metadata)
    requires ValidBatches(bs)
  {
    forall i :: 0 <= i < |bs| ==> BatchAskable(bs[i], m)
  }

  ghost predicate BatchAskable(b: Batch, m: Metadata) {
    forall j, k :: 0 <= j < |b.columns| && 0 <= k < |b.columns[j].cells| ==>
                     CellAskable(Cell(b.columns[j].field, b.columns[j].cells[k]), m)
  }

  lemma {:induction false} DeleteRowsAskable(bs: seq<Batch>, m: Metadata)
    requires ValidBatches(bs) && BatchesAskable(bs, m)
    ensures forall i, k :: 0 <= i < |DeleteRows(bs)| && 0 <= k < |DeleteRows(bs)[i]| ==>
                             CellAskable(DeleteRows(bs)[i][k], m)
  {
    hide CellAskable, BatchRows;
    if bs != [] {
      DeleteRowsAskable(bs[1..], m);
      BatchRowsAt(bs[0], 0);
      assert BatchAskable(bs[0], m);
    }
  }

  lemma {:induction false} NegateAskable(p: Predicate, m: Metadata)
    requires Plain(p, m)
    ensures Plain(Negate(p), m)
  {
    match p
    case And(l, r) => NegateAskable(l, m); NegateAskable(r, m);
    case Or(l, r) => NegateAskable(l, m); NegateAskable(r, m);
    case _ =>
  }

  lemma {:induction false} RowMatchAskable(cells: seq<Cell>, m: Metadata)
    requires forall k :: 0 <= k < |cells| ==> CellAskable(cells[k], m)
    ensures Plain(RowMatch(cells), m)
    decreases |cells|
  {
    hide CellAskable;
    hide AndOf, CellPredicate;
    if cells == [] {
      AlwaysTrueAskable(m);
    } else {
      var n := |cells| - 1;
      RowMatchAskable(cells[..n], m);
      CellPredicateAskable(cells[n], m);
      AndOfAskable(RowMatch(cells[..n]), CellPredicate(cells[n]), m);
    }
  }

  lemma {:induction false} CellPredicateAskable(c: Cell, m: Metadata)
    requires CellAskable(c, m)
    ensures Plain(CellPredicate(c), m)
  {
  }

  lemma {:induction false} NegatedRowAskable(cells: seq<Cell>, m: Metadata)
    requires forall k :: 0 <= k < |cells| ==> CellAskable(cells[k], m)
    ensures Plain(NegatedRow(cells), m)
  {
    hide Askable, CellAskable, Plain;
    RowMatchAskable(cells, m);
    RowMatchNotFree(cells);
    NegateAskable(RowMatch(cells), m);
    assert NegatedRow(cells) == Negate(RowMatch(cells));
  }

  lemma {:induction false} PairUpAskable(ps: seq<Predicate>, m: Metadata)
    requires forall i :: 0 <= i < |ps| ==> Plain(ps[i], m)
    ensures forall i :: 0 <= i < |PairUp(ps)| ==> Plain(PairUp(ps)[i], m)
    decreases |ps|
  {
    hide Askable, AndOf;
    if |ps| >= 2 {
      PairUpAskable(ps[2..], m);
      AndOfAskable(ps[0], ps[1], m);
    }
  }

  lemma {:induction false} BalancedAndAskable(ps: seq<Predicate>, m: Metadata)
    requires forall i :: 0 <= i < |ps| ==> Plain(ps[i], m)
    ensures Plain(BalancedAnd(ps), m)
    decreases |ps|
  {
    hide Plain, PairUp;
    if ps == [] {
      AlwaysTrueAskable(m);
    } else if |ps| > 1 {
      PairUpAskable(ps, m);
      BalancedAndAskable(PairUp(ps), m);
    }
  }

  lemma {:induction false} FilePredicateAskable(bs: seq<Batch>, m: Metadata)
    requires ValidBatches(bs) && BatchesAskable(bs, m)
    ensures Plain(FilePredicate(bs), m) && Askable(FilePredicate(bs), m)
  {
    hide Askable, CellAskable, BalancedAnd, NegatedRow, DeleteRows, TextPrefixes;
    AlwaysTrueAskable(m);
    DeleteRowsAskable(bs, m);
    var rows := DeleteRows(bs);
    forall i | 0 <= i < |rows| ensures Plain(NegatedRows(rows)[i], m) { NegatedRowAskable(rows[i], m); }
    BalancedAndAskable(NegatedRows(rows), m);
  }

  /** After the loads, on metadata that is true of the file, the evaluators prune safely for the final predicate. */
  lemma {:induction false} LoadedTaskIsConservative(
      task: Task, m: Metadata, el: EqualityRun, answers: seq<Option<Predicate>>)
    requires ValidTask(task) && el.Answers(task.deletes, answers)
    requires Describes(m, task.groupRows, task.rows) && TrueMetadata(m, task.groupRows, task.rows)
    requires EvaluatorsOf(task, m) && (task.filter.Some? ==> Askable(task.filter.value, m))
    requires forall i :: 0 <= i < |task.deletes| && task.deletes[i].isEquality ==>
                           ValidBatches(el.batches[i]) && BatchesAskable(el.batches[i], m)
    ensures Conservative(TaskScan(task, answers))
  {
    hide Askable, Describes, TrueMetadata, EvaluatorsOf, Conservative, BatchesAskable, FilePredicate, IsTrue;
    hide KeptByFile, TaskScan;
    AnswersAreParsed(el, task.deletes, answers);
    forall i | 0 <= i < |task.deletes| && task.deletes[i].isEquality ensures Askable(answers[i].value, m) {
      FilePredicateAskable(el.batches[i], m);
    }
    TaskIsConservative(task, m, answers);
  }

  /** Nor does any evaluation fail for the predicates that the loads leave behind. */
  lemma {:induction false} LoadedTaskEvaluates(
      task: Task, m: Metadata, el: EqualityRun, answers: seq<Option<Predicate>>)
    requires ValidTask(task) && el.Answers(task.deletes, answers)
    requires Describes(m, task.groupRows, task.rows) && EvaluatorsOf(task, m) && MetadataReadable(m)
    requires (task.filter.Some? ==> Plain(task.filter.value, m)) &&
             (task.rowSelection ==> forall p :: task.pageIndex(p).Some?)
    requires forall i :: 0 <= i < |task.deletes| && task.deletes[i].isEquality ==>
                           ValidBatches(el.batches[i]) && BatchesAskable(el.batches[i], m)
    ensures Evaluates(TaskScan(task, answers))
  {
    hide Plain, Describes, MetadataReadable, EvaluatorsOf, Evaluates, BatchesAskable, FilePredicate, IsTrue;
    hide KeptByFile, TaskScan;
    AnswersAreParsed(el, task.deletes, answers);
    forall i | 0 <= i < |task.deletes| && task.deletes[i].isEquality ensures Plain(answers[i].value, m) {
      FilePredicateAskable(el.batches[i], m);
    }
    TaskEvaluates(task, m, answers);
  }

  // ---- end to end ----

  /** A row to be returned when the positional deletes are known by the rows of their files. */
  ghost predicate LiveByRows(
      task: Task, batches: seq<seq<Batch>>, rows: map<string, seq<PL.PosRow>>, files: set<string>, p: nat)
    requires |batches| == |task.deletes|
  {
    Live(task, batches, {}, p) && p < TWO_64 && !PL.RowDeletes(rows, files, task.dataFile, p)
  }

  /** No started delete file but the requested ones deletes from the data file. */
  ghost predicate OnlyRequested(pl: PositionalRun, dataFile: string)
    requires pl.Valid()
  {
    forall p :: PL.RowDeletes(pl.rows, pl.Started(), dataFile, p) ==>
                  PL.RowDeletes(pl.rows, pl.Requested(), dataFile, p)
  }

  /** The loaded vector holds what rows of the requested files delete, and only what rows of started files do. */
  ghost predicate VectorFromRows(pl: PositionalRun, dataFile: string)
    requires pl.Valid()
  {
    && (forall p: u64 :: PL.RowDeletes(pl.rows, pl.Requested(), dataFile, p) ==> p in pl.Vector(dataFile))
    && (forall p: u64 :: p in pl.Vector(dataFile) ==> PL.RowDeletes(pl.rows, pl.Started(), dataFile, p))
  }

  lemma {:induction false} LoadedRows(pl: PositionalRun, dataFile: string)
    requires pl.Valid()
    ensures VectorFromRows(pl, dataFile)
  {
    hide PL.Run, PL.Requested, PL.RowDeletes, PL.ContentsParsed, PL.VectorOf;
    PL.SuccessfulLoadIsComplete(pl.worlds, pl.actions, pl.contents, pl.call, pl.done, pl.now, dataFile);
    forall p: u64
      ensures PL.RowDeletes(pl.rows, pl.Requested(), dataFile, p) ==> p in pl.Vector(dataFile)
      ensures p in pl.Vector(dataFile) ==> PL.RowDeletes(pl.rows, pl.Started(), dataFile, p)
    {
      PL.RequestedRows(pl.contents, pl.rows, pl.Requested(), dataFile, p);
      PL.RequestedRows(pl.contents, pl.rows, pl.Started(), dataFile, p);
    }
  }

  /**
   Merge on read, end to end. At a moment when the positional jobs of a load have all succeeded, and with the answers
   the filter has given for the equality delete files, the rows returned are exactly the ascending positions in the
   task's row groups that the filter lets through, that the walk does not find deleted, and that every equality delete
   file keeps; where the walk serves the deletes, these are the positions not in the loaded vector. The vector holds
   every position that a row of a requested delete file deletes, and none that no row of a started file deletes, so
   when no other file deletes from this data file the result is that of the delete files' rows. Nothing the loads leave
   behind can make the read fail.
   */
  method ReadAfterLoads(
      task: Task, filter: DeleteFilter, answers: seq<Option<Predicate>>, ghost pl: PositionalRun, ghost el: EqualityRun)
    returns (r: Result<seq<nat>>)
    requires ValidTask(task) && filter.Valid() && pl.Valid() && el.Answers(task.deletes, answers)
    requires filter.State() == pl.worlds[pl.now].filter == el.worlds[el.now].filter
    requires Conservative(TaskScan(task, answers)) && Returns(TaskScan(task, answers), VectorIn(filter, task.dataFile))
    ensures r.Ok? <==> Evaluates(TaskScan(task, answers))
    ensures r.Ok? ==> Enumerates(r.value, iset p: nat | Live(task, el.batches, FoundIn(task, answers, filter), p))
    ensures r.Ok? && ServesDeletes(TaskScan(task, answers), VectorIn(filter, task.dataFile)) ==>
              && Enumerates(r.value, iset p: nat | Live(task, el.batches, pl.Vector(task.dataFile), p))
              && (OnlyRequested(pl, task.dataFile) ==>
                    Enumerates(r.value, iset p: nat | LiveByRows(task, el.batches, pl.rows, pl.Requested(), p)))
    ensures VectorFromRows(pl, task.dataFile)
  {
    hide Enumerates, Conservative, Evaluates, PL.Run, EL.Run, InTask, Live, LiveByRows, FoundIn, ServesDeletes, Returns;
    hide Returned, PL.RowDeletes, PL.ContentsParsed, TaskScan, IsTrue, KeptByFile, FilePredicate;
    AnswersAreParsed(el, task.deletes, answers);
    LoadedRows(pl, task.dataFile);
    r := ReadTask(task, filter, answers);
    ghost var deleted := pl.Vector(task.dataFile);
    assert DeletedFrom(filter.State(), task.dataFile) == deleted;
    ReturnedRowsLive(task, answers, el.batches, FoundIn(task, answers, filter));
    ReturnedRowsLive(task, answers, el.batches, deleted);
    if OnlyRequested(pl, task.dataFile) {
      LiveRowsByRows(task, el.batches, pl.rows, pl.Requested(), deleted);
    }
  }

  lemma {:induction false} ReturnedRowsLive(
      task: Task, answers: seq<Option<Predicate>>, batches: seq<seq<Batch>>, deleted: set<u64>)
    requires |answers| == |batches| == |task.deletes|
    requires forall row: Row, i :: 0 <= i < |task.deletes| && task.deletes[i].isEquality ==>
                                     (IsTrue(answers[i], row) <==> KeptByFile(batches[i], row))
    ensures (iset p: nat | Returned(task, answers, deleted, p)) == iset p: nat | Live(task, batches, deleted, p)
  {
    hide Returned, Live, IsTrue, KeptByFile;
    forall p: nat ensures Returned(task, answers, deleted, p) <==> Live(task, batches, deleted, p) {
      SameRow(task, answers, batches, deleted, p);
    }
  }

  lemma {:induction false} SameRow(
      task: Task, answers: seq<Option<Predicate>>, batches: seq<seq<Batch>>, deleted: set<u64>, p: nat)
    requires |answers| == |batches| == |task.deletes|
    requires forall row: Row, i :: 0 <= i < |task.deletes| && task.deletes[i].isEquality ==>
                                     (IsTrue(answers[i], row) <==> KeptByFile(batches[i], row))
    ensures Returned(task, answers, deleted, p) <==> Live(task, batches, deleted, p)
  {
    hide IsTrue, KeptByFile;
  }

  lemma {:induction false} LiveRowsByRows(
      task: Task, batches: seq<seq<Batch>>, rows: map<string, seq<PL.PosRow>>, files: set<string>, deleted: set<u64>)
    requires |batches| == |task.deletes| && |task.rows| < TWO_64
    requires forall p: u64 :: p in deleted <==> PL.RowDeletes(rows, files, task.dataFile, p)
    ensures (iset p: nat | Live(task, batches, deleted, p)) == iset p: nat | LiveByRows(task, batches, rows, files, p)
  {
    hide IsTrue, KeptByFile, PL.RowDeletes;
    forall p: nat ensures Live(task, batches, deleted, p) <==> LiveByRows(task, batches, rows, files, p) {
      if p < TWO_64 { assert p in deleted <==> PL.RowDeletes(rows, files, task.dataFile, p); }
    }
  }
}
