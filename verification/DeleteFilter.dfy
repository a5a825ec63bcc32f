/**
 The delete filter shared by all scan tasks of a reader: three maps behind one lock. Each method body is one lock
 region; what it does to the shared state is a function of that state, from which the load protocols are built.
 */
module DeleteFilters {
  import opened Prelude
  import opened DeleteVectors
  import opened Predicates

  /** A notifier, known by the order in which it was created. */
  type Notifier = nat

  datatype PosDelState = Loading(notify: Notifier) | Loaded

  datatype EqDelState = EqLoading(notify: Notifier) | EqLoaded(p: Predicate)

  datatype PosDelLoadAction = Load | AlreadyLoaded | WaitFor(notify: Notifier)

  type Vectors = map<string, set<u64>>

  datatype FilterState = FilterState(
    vectors: Vectors,
    equality: map<string, EqDelState>,
    positional: map<string, PosDelState>,
    notifiers: nat)

  const Empty := FilterState(map[], map[], map[], 0)

  // ---- the lock regions, as functions of the shared state ----

  function TryStartPos(s: FilterState, file: string): (FilterState, PosDelLoadAction) {
    if file in s.positional then
      (s, match s.positional[file] case Loaded => AlreadyLoaded case Loading(n) => WaitFor(n))
    else
      (s.(positional := s.positional[file := Loading(s.notifiers)], notifiers := s.notifiers + 1), Load)
  }

  function FinishPos(s: FilterState, file: string): (FilterState, Option<Notifier>) {
    (s.(positional := s.positional[file := Loaded]),
     if file in s.positional && s.positional[file].Loading? then Some(s.positional[file].notify) else None)
  }

  function Upsert(s: FilterState, dataFile: string, deleted: set<u64>): FilterState {
    s.(vectors := s.vectors[dataFile := (if dataFile in s.vectors then s.vectors[dataFile] else {}) + deleted])
  }

  function TryStartEq(s: FilterState, file: string): (FilterState, Option<Notifier>) {
    if file in s.equality then (s, None)
    else (s.(equality := s.equality[file := EqLoading(s.notifiers)], notifiers := s.notifiers + 1), Some(s.notifiers))
  }

  /** `insert_equality_delete` up to the spawned task: the state is `Loading` again, under a new notifier. */
  function InsertEq(s: FilterState, file: string): (FilterState, Notifier) {
    (s.(equality := s.equality[file := EqLoading(s.notifiers)], notifiers := s.notifiers + 1), s.notifiers)
  }

  /** The lock region of the spawned task, once the predicate has arrived. */
  function StoreEq(s: FilterState, file: string, p: Predicate): FilterState {
    s.(equality := s.equality[file := EqLoaded(p)])
  }

  function LookupEq(s: FilterState, file: string): Option<EqDelState> {
    if file in s.equality then Some(s.equality[file]) else None
  }

  lemma {:induction false} UpdatedMap<T>(before: map<string, T>, after: map<string, T>, key: string)
    requires after.Keys == before.Keys + {key}
    requires forall d :: d in before && d != key ==> after[d] == before[d]
    ensures after == before[key := after[key]]
  {
  }

  // ---- the object ----

  class DeleteFilter {
    var deleteVectors: map<string, DeleteVector>
    var equalityDeletes: map<string, EqDelState>
    var positionalDeletes: map<string, PosDelState>
    var notifiers: nat

    /** Every data file has its own delete vector. */
    ghost predicate Valid()
      reads this`deleteVectors, deleteVectors.Values
    {
      && (forall d :: d in deleteVectors ==> deleteVectors[d].Valid())
      && (forall d, e :: d in deleteVectors && e in deleteVectors && d != e ==> deleteVectors[d] != deleteVectors[e])
    }

    ghost function Deleted(): (v: Vectors)
      reads this`deleteVectors, deleteVectors.Values
      ensures v.Keys == deleteVectors.Keys
      ensures forall d :: d in deleteVectors ==> v[d] == deleteVectors[d].Deleted()
    {
      map d | d in deleteVectors :: deleteVectors[d].Deleted()
    }

    ghost function State(): FilterState
      reads this, deleteVectors.Values
    {
      FilterState(Deleted(), equalityDeletes, positionalDeletes, notifiers)
    }

    constructor ()
      ensures Valid() && State() == Empty
    {
      deleteVectors, equalityDeletes, positionalDeletes, notifiers := map[], map[], map[], 0;
    }

    method TryStartPosDelLoad(file: string) returns (action: PosDelLoadAction)
      requires Valid()
      modifies this`positionalDeletes, this`notifiers
      ensures Valid() && (State(), action) == TryStartPos(old(State()), file)
    {
      if file in positionalDeletes {
        match positionalDeletes[file]
        case Loaded => return AlreadyLoaded;
        case Loading(notify) => return WaitFor(notify);
      }
      positionalDeletes, notifiers := positionalDeletes[file := Loading(notifiers)], notifiers + 1;
      action := Load;
    }

    /** Marks the file loaded and hands back the notifier to fire once the lock is released. */
    method FinishPosDelLoad(file: string) returns (notify: Option<Notifier>)
      requires Valid()
      modifies this`positionalDeletes
      ensures Valid() && (State(), notify) == FinishPos(old(State()), file)
    {
      notify :=
        if file in positionalDeletes && positionalDeletes[file].Loading? then Some(positionalDeletes[file].notify)
        else None;
      positionalDeletes := positionalDeletes[file := Loaded];
    }

    /** The vector is stored, or merged in place into the one already there. */
    method UpsertDeleteVector(dataFile: string, vector: DeleteVector)
      requires Valid() && vector.Valid() && vector !in deleteVectors.Values
      modifies this`deleteVectors, deleteVectors.Values
      ensures Valid() && State() == Upsert(old(State()), dataFile, old(vector.Deleted()))
    {
      hide Members, ValidTreemap;
      ghost var before, deleted := Deleted(), vector.Deleted();
      if dataFile !in deleteVectors {
        deleteVectors := deleteVectors[dataFile := vector];
      } else {
        var entry := deleteVectors[dataFile];
        assert forall d :: d in deleteVectors && d != dataFile ==> deleteVectors[d] != entry;
        entry.BitOrAssign(vector);
      }
      assert forall d :: d in before && d != dataFile ==> deleteVectors[d].Deleted() == before[d];
      assert deleteVectors[dataFile].Deleted() == (if dataFile in before then before[dataFile] else {}) + deleted;
      UpdatedMap(before, Deleted(), dataFile);
    }

    method TryStartEqDelLoad(file: string) returns (notify: Option<Notifier>)
      requires Valid()
      modifies this`equalityDeletes, this`notifiers
      ensures Valid() && (State(), notify) == TryStartEq(old(State()), file)
    {
      if file in equalityDeletes { return None; }
      notify := Some(notifiers);
      equalityDeletes, notifiers := equalityDeletes[file := EqLoading(notifiers)], notifiers + 1;
    }

    method InsertEqualityDelete(file: string) returns (notify: Notifier)
      requires Valid()
      modifies this`equalityDeletes, this`notifiers
      ensures Valid() && (State(), notify) == InsertEq(old(State()), file)
    {
      notify := notifiers;
      equalityDeletes, notifiers := equalityDeletes[file := EqLoading(notify)], notifiers + 1;
    }

    method StoreEqualityDelete(file: string, p: Predicate)
      requires Valid()
      modifies this`equalityDeletes
      ensures Valid() && State() == StoreEq(old(State()), file, p)
    {
      equalityDeletes := equalityDeletes[file := EqLoaded(p)];
    }

    method LookupEqualityDelete(file: string) returns (found: Option<EqDelState>)
      requires Valid()
      ensures found == LookupEq(State(), file)
    {
      found := if file in equalityDeletes then Some(equalityDeletes[file]) else None;
    }

    method GetDeleteVectorForPath(dataFile: string) returns (vector: Option<DeleteVector>)
      requires Valid()
      ensures vector == if dataFile in deleteVectors then Some(deleteVectors[dataFile]) else None
      ensures vector.Some? <==> dataFile in State().vectors
      ensures vector.Some? ==> vector.value.Valid() && vector.value.Deleted() == State().vectors[dataFile]
    {
      vector := if dataFile in deleteVectors then Some(deleteVectors[dataFile]) else None;
    }
  }
}
